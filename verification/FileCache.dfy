/**
 The dirty-flag file cache of pkg/filecache/filecache.go.

 The functions say what the critical sections of `Get` and `invalidate` do to the map; the class has
 the methods themselves.  The outcome of os.ReadFile is a parameter.
 */
module FileCache {
  import opened Prelude
  import opened Debounce

  type Bytes = string

  datatype File = File(dirty: bool, data: Bytes)

  type Files = map<Name, File>

  datatype Op = Write | Remove

  /** os.ReadFile: the bytes, a not-exist error, or any other error. */
  datatype ReadResult = Present(data: Bytes) | Absent | Failed

  /** `Get` returns (nil, _, nil) for an absent file; an empty file is Some(""). */
  datatype GetResult = Got(data: Option<Bytes>, updated: bool) | GetError

  predicate Clean(files: Files, n: Name) {
    n in files && !files[n].dirty
  }

  function GetResultOf(files: Files, n: Name, read: ReadResult): GetResult {
    if Clean(files, n) then Got(Some(files[n].data), false)
    else match read
      case Present(data) => Got(Some(data), true)
      case Absent => Got(None, true)
      case Failed => GetError
  }

  function GetFiles(files: Files, n: Name, read: ReadResult): Files {
    if Clean(files, n) then files
    else match read
      case Present(data) => files[n := File(false, data)]
      case Absent => files - {n}
      case Failed => files
  }

  function InvalidateFiles(files: Files, n: Name, op: Op): Files {
    if n !in files then files
    else if op.Remove? then files - {n}
    else files[n := files[n].(dirty := true)]
  }

  /** Whether `invalidate` calls queue.add: always, except on a write to an entry already dirty. */
  predicate Requeues(files: Files, n: Name, op: Op) {
    n !in files || op.Remove? || !files[n].dirty
  }

  /** Whether `invalidate` starts the throw-away `go c.Get(name)`. */
  predicate Spawns(files: Files, n: Name, op: Op) {
    n !in files
  }

  class Cache {
    var files: Files
    const queue: DelayedCallbacks
    var spawned: seq<Name>

    constructor (queue: DelayedCallbacks)
      ensures files == map[] && spawned == [] && this.queue == queue
    {
      files, spawned, this.queue := map[], [], queue;
    }

    method Get(n: Name, read: ReadResult) returns (r: GetResult)
      modifies this`files
      ensures r == GetResultOf(old(files), n, read)
      ensures files == GetFiles(old(files), n, read)
      ensures n in old(files) && !old(files)[n].dirty ==>
                r == Got(Some(old(files)[n].data), false) && files == old(files)
      ensures n !in old(files) || old(files)[n].dirty ==>
                match read
                case Present(data) => r == Got(Some(data), true) && files == old(files)[n := File(false, data)]
                case Absent => r == Got(None, true) && files == old(files) - {n}
                case Failed => r == GetError && files == old(files)
    {
      if n in files && !files[n].dirty {
        return Got(Some(files[n].data), false);
      }
      match read {
        case Failed => return GetError;
        case Absent =>
          files := files - {n};
          return Got(None, true);
        case Present(data) =>
          files := files[n := File(false, data)];
          return Got(Some(data), true);
      }
    }

    method Invalidate(n: Name, op: Op, now: nat)
      requires queue.Contents().Valid()
      modifies this`files, this`spawned, queue
      ensures files == InvalidateFiles(old(files), n, op)
      ensures spawned == old(spawned) + if Spawns(old(files), n, op) then [n] else []
      ensures queue.Contents() ==
              if Requeues(old(files), n, op) then old(queue.Contents()).Add(n, now) else old(queue.Contents())
      ensures queue.Contents().Valid()
      ensures n !in old(files) ==>
                && files == old(files) && spawned == old(spawned) + [n]
                && queue.Contents() == old(queue.Contents()).Add(n, now)
      ensures n in old(files) && op.Remove? ==>
                && files == old(files) - {n} && spawned == old(spawned)
                && queue.Contents() == old(queue.Contents()).Add(n, now)
      ensures n in old(files) && op.Write? ==>
                && files == old(files)[n := File(true, old(files)[n].data)] && spawned == old(spawned)
                && queue.Contents() ==
                   if old(files)[n].dirty then old(queue.Contents()) else old(queue.Contents()).Add(n, now)
    {
      if n in files {
        if op == Remove {
          files := files - {n};
          queue.Add(n, now);
          return;
        }
        if !files[n].dirty {
          queue.Add(n, now);
        }
        files := files[n := files[n].(dirty := true)];
        return;
      }
      spawned := spawned + [n];
      queue.Add(n, now);
    }
  }
}
