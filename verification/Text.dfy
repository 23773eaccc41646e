/**
 The string operations of the Go standard library that the proxy relies on, as functions, and the
 laws about them that the other modules use.
 */
module Text {
  import opened Prelude

  /** unicode.IsSpace. */
  predicate IsSpace(c: char) {
    || c in {'\t', '\n', '\U{0B}', '\U{0C}', '\r', ' ', '\U{85}', '\U{A0}', '\U{1680}'}
    || '\U{2000}' <= c <= '\U{200A}'
    || c in {'\U{2028}', '\U{2029}', '\U{202F}', '\U{205F}', '\U{3000}'}
  }

  /** strings.TrimSpace. */
  function TrimSpace(s: string): string {
    if s == "" then ""
    else if IsSpace(s[0]) then TrimSpace(s[1..])
    else if IsSpace(s[|s| - 1]) then TrimSpace(s[..|s| - 1])
    else s
  }

  /** No space at either end. */
  predicate Trimmed(s: string) {
    s == "" || (!IsSpace(s[0]) && !IsSpace(s[|s| - 1]))
  }

  /** strings.TrimPrefix. */
  function TrimPrefix(s: string, prefix: string): string {
    if prefix <= s then s[|prefix|..] else s
  }

  /** strings.SplitN(s, sep, 2): None when `sep` does not occur. */
  function Cut(s: string, sep: char): (r: Option<(string, string)>)
    ensures r.None? <==> sep !in s
    ensures r.Some? ==> sep !in r.value.0 && s == r.value.0 + [sep] + r.value.1
  {
    if s == "" then None
    else if s[0] == sep then Some(("", s[1..]))
    else match Cut(s[1..], sep)
      case None => None
      case Some(parts) => Some(([s[0]] + parts.0, parts.1))
  }

  /** Splitting at the first separator is determined by the separator-free head. */
  lemma {:induction false} CutConcat(head: string, sep: char, tail: string)
    requires sep !in head
    ensures Cut(head + [sep] + tail, sep) == Some((head, tail))
  {
    var s := head + [sep] + tail;
    if head == "" {
      assert s[0] == sep && s[1..] == tail;
    } else {
      var rest := head[1..];
      CutConcat(rest, sep, tail);
      assert s[0] == head[0] && s[1..] == rest + [sep] + tail;
      assert [head[0]] + rest == head;
    }
  }

  /** strings.Split(s, sep). */
  function Split(s: string, sep: char): (parts: seq<string>)
    ensures |parts| >= 1
    ensures forall i :: 0 <= i < |parts| ==> sep !in parts[i]
    decreases |s|
  {
    match Cut(s, sep)
    case None => [s]
    case Some(parts) => [parts.0] + Split(parts.1, sep)
  }

  /** strings.Join(parts, sep). */
  function Join(parts: seq<string>, sep: string): string {
    if parts == [] then ""
    else if |parts| == 1 then parts[0]
    else parts[0] + sep + Join(parts[1..], sep)
  }

  lemma {:induction false} JoinSplit(s: string, sep: char)
    ensures Join(Split(s, sep), [sep]) == s
    decreases |s|
  {
    match Cut(s, sep)
    case None =>
    case Some(parts) =>
      JoinSplit(parts.1, sep);
      assert Split(s, sep)[1..] == Split(parts.1, sep);
  }

  lemma {:induction false} SplitJoin(parts: seq<string>, sep: char)
    requires parts != []
    requires forall i :: 0 <= i < |parts| ==> sep !in parts[i]
    ensures Split(Join(parts, [sep]), sep) == parts
  {
    if |parts| == 1 {
      assert Cut(parts[0], sep).None?;
    } else {
      SplitJoin(parts[1..], sep);
      CutConcat(parts[0], sep, Join(parts[1..], [sep]));
      assert parts == [parts[0]] + parts[1..];
    }
  }

  lemma Assoc(a: string, b: string, c: string, d: string)
    ensures a + (b + c + d) == (a + b) + c + d
  {
  }

  /** Joining distributes over concatenation of non-empty lists. */
  lemma {:induction false} JoinConcat(a: seq<string>, b: seq<string>, sep: string)
    requires a != [] && b != []
    ensures Join(a + b, sep) == Join(a, sep) + sep + Join(b, sep)
  {
    var ab := a + b;
    if |a| == 1 {
      assert ab[1..] == b;
    } else {
      JoinConcat(a[1..], b, sep);
      assert ab[1..] == a[1..] + b;
      Assoc(a[0] + sep, Join(a[1..], sep), sep, Join(b, sep));
    }
  }

  lemma JoinAppend(parts: seq<string>, x: string, sep: string)
    ensures Join(parts + [x], sep) == if parts == [] then x else Join(parts, sep) + sep + x
  {
    if parts == [] {
      assert parts + [x] == [x];
    } else {
      JoinConcat(parts, [x], sep);
    }
  }

  function LowerChar(c: char): char {
    if 'A' <= c <= 'Z' then (c as int + 32) as char else c
  }

  function UpperChar(c: char): char {
    if 'a' <= c <= 'z' then (c as int - 32) as char else c
  }

  /** strings.ToLower, on ASCII. */
  function ToLower(s: string): (r: string)
    ensures |r| == |s|
  {
    seq(|s|, i requires 0 <= i < |s| => LowerChar(s[i]))
  }

  /** strings.EqualFold, on ASCII. */
  predicate EqualFold(s: string, t: string) {
    ToLower(s) == ToLower(t)
  }

  lemma ToLowerIdempotent(s: string)
    ensures ToLower(ToLower(s)) == ToLower(s)
  {
  }

  /** strings.ReplaceAll(s, old, new) for single characters. */
  function ReplaceAll(s: string, before: char, after: char): (r: string)
    ensures |r| == |s|
  {
    seq(|s|, i requires 0 <= i < |s| => if s[i] == before then after else s[i])
  }

  /** bytes.Lines: the lines of `s`, each with its terminating newline if it has one. */
  function Lines(s: string): seq<string>
    decreases |s|
  {
    if s == "" then []
    else match Cut(s, '\n')
      case None => [s]
      case Some(parts) => [parts.0 + "\n"] + Lines(parts.1)
  }

  function DropCr(line: string): string {
    if line != "" && line[|line| - 1] == '\r' then line[..|line| - 1] else line
  }

  /** bufio.ScanLines: the lines of `s` without line ends; no empty line after the last newline. */
  function ScanLines(s: string): (lines: seq<string>)
    ensures forall i :: 0 <= i < |lines| ==> '\n' !in lines[i]
    decreases |s|
  {
    if s == "" then []
    else match Cut(s, '\n')
      case None => [DropCr(s)]
      case Some(parts) => [DropCr(parts.0)] + ScanLines(parts.1)
  }

  /** Trimming only takes characters away, and leaves no space at either end. */
  lemma {:induction false} TrimSpaceTrims(s: string)
    ensures Trimmed(TrimSpace(s)) && forall c :: c in TrimSpace(s) ==> c in s
  {
    if s != "" {
      if IsSpace(s[0]) {
        TrimSpaceTrims(s[1..]);
      } else if IsSpace(s[|s| - 1]) {
        TrimSpaceTrims(s[..|s| - 1]);
      }
    }
  }

  /** What trimming takes away is space at both ends. */
  lemma {:induction false} TrimSpaceSplits(s: string) returns (left: string, right: string)
    ensures s == left + TrimSpace(s) + right
    ensures forall c :: c in left || c in right ==> IsSpace(c)
  {
    left, right := "", "";
    if s != "" {
      if IsSpace(s[0]) {
        left, right := TrimSpaceSplits(s[1..]);
        left := [s[0]] + left;
      } else if IsSpace(s[|s| - 1]) {
        left, right := TrimSpaceSplits(s[..|s| - 1]);
        right := right + [s[|s| - 1]];
      }
    }
  }

  /** Trimming is determined by the trimmed middle. */
  lemma {:induction false} TrimPadded(left: string, s: string, right: string)
    requires forall c :: c in left || c in right ==> IsSpace(c)
    requires Trimmed(s)
    ensures TrimSpace(left + s + right) == s
    decreases |left| + |right|
  {
    var t := left + s + right;
    if left != "" {
      TrimPadded(left[1..], s, right);
      assert t[1..] == left[1..] + s + right;
    } else if right != "" {
      var r := right[..|right| - 1];
      if s == "" {
        TrimPadded("", s, right[1..]);
        assert t[1..] == "" + s + right[1..];
        assert t[0] == right[0];
      } else {
        TrimPadded("", s, r);
        assert t[..|t| - 1] == "" + s + r;
        assert t[0] == s[0] && t[|t| - 1] == right[|right| - 1];
      }
    } else {
      assert t == s;
    }
  }

  /** Letter by letter one of the two given spellings. */
  predicate Spells(s: string, lower: string, upper: string)
    requires |lower| == |upper|
  {
    |s| == |lower| && forall i :: 0 <= i < |s| ==> s[i] == lower[i] || s[i] == upper[i]
  }

  lemma LowersTo(s: string, lower: string, upper: string)
    requires |lower| == |upper|
    requires forall i :: 0 <= i < |lower| ==> 'a' <= lower[i] <= 'z' && upper[i] as int + 32 == lower[i] as int
    ensures Spells(s, lower, upper) <==> ToLower(s) == lower
  {
    if ToLower(s) == lower {
      forall i | 0 <= i < |s|
        ensures s[i] == lower[i] || s[i] == upper[i]
      {
        assert ToLower(s)[i] == lower[i];
      }
    }
  }

  /** The lines of a text, put together, are the text; each but the last ends in its only newline, and none
      is empty. */
  lemma {:induction false} LinesLaw(s: string)
    ensures Join(Lines(s), "") == s
    ensures forall i :: 0 <= i < |Lines(s)| ==> var line := Lines(s)[i];
              && line != "" && (forall j :: 0 <= j < |line| - 1 ==> line[j] != '\n')
              && (i < |Lines(s)| - 1 ==> line[|line| - 1] == '\n')
    decreases |s|
  {
    if s != "" && Cut(s, '\n').Some? {
      var parts := Cut(s, '\n').value;
      LinesLaw(parts.1);
      assert Lines(s)[1..] == Lines(parts.1);
    }
  }
}
