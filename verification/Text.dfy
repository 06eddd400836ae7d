/** The string operations the SDP rewriting is built from, and how splitting and joining undo each other. */
module Text {

  /** `c` does not occur in `s`. */
  predicate Without(s: string, c: char) {
    forall k :: 0 <= k < |s| ==> s[k] != c
  }

  /** Where `c` first stands in `s`, or the length of `s`. */
  function IndexOf(s: string, c: char): (i: nat)
    ensures i <= |s|
    ensures forall k :: 0 <= k < i ==> s[k] != c
    ensures i < |s| ==> s[i] == c
  {
    if |s| == 0 || s[0] == c then 0 else 1 + IndexOf(s[1..], c)
  }

  lemma {:induction false} IndexOfIs(s: string, c: char, i: nat)
    requires i <= |s| && (forall k :: 0 <= k < i ==> s[k] != c) && (i < |s| ==> s[i] == c)
    ensures IndexOf(s, c) == i
  {
  }

  predicate StartsWith(s: string, prefix: string) {
    |prefix| <= |s| && s[..|prefix|] == prefix
  }

  // ----- Whitespace -----

  /** The characters with the Unicode White_Space property. */
  predicate IsSpace(c: char) {
    || '\U{9}' <= c <= '\U{D}'
    || c == '\U{20}' || c == '\U{85}' || c == '\U{A0}' || c == '\U{1680}'
    || '\U{2000}' <= c <= '\U{200A}'
    || c == '\U{2028}' || c == '\U{2029}' || c == '\U{202F}' || c == '\U{205F}' || c == '\U{3000}'
  }

  predicate IsEol(c: char) {
    c == '\r' || c == '\n'
  }

  function TrimStart(s: string): (t: string)
    ensures |t| <= |s| && t == s[|s| - |t|..]
    ensures |t| > 0 ==> !IsSpace(t[0])
    ensures forall i :: 0 <= i < |s| - |t| ==> IsSpace(s[i])
  {
    if |s| > 0 && IsSpace(s[0]) then TrimStart(s[1..]) else s
  }

  function TrimEnd(s: string): (t: string)
    ensures |t| <= |s| && t == s[..|t|]
    ensures |t| > 0 ==> !IsSpace(t[|t| - 1])
    ensures forall i :: |t| <= i < |s| ==> IsSpace(s[i])
  {
    if |s| > 0 && IsSpace(s[|s| - 1]) then TrimEnd(s[..|s| - 1]) else s
  }

  predicate Trimmed(s: string) {
    |s| > 0 ==> !IsSpace(s[0]) && !IsSpace(s[|s| - 1])
  }

  function Trim(s: string): (t: string)
    ensures Trimmed(t)
    ensures Trimmed(s) ==> t == s
  {
    TrimEnd(TrimStart(s))
  }

  lemma {:induction false} TrimStartIs(space: string, body: string)
    requires forall i :: 0 <= i < |space| ==> IsSpace(space[i])
    requires body != "" && !IsSpace(body[0])
    ensures TrimStart(space + body) == body
  {
    hide IsSpace, TrimStart;
    var s := space + body;
    var n := |s| - |TrimStart(s)|;
    assert s[|space|] == body[0];
    assert n <= |space|;
    assert forall i :: 0 <= i < |space| ==> s[i] == space[i];
    assert TrimStart(s)[0] == s[n];
    assert s[|space|..] == body;
  }

  lemma {:induction false} TrimEndIs(body: string, space: string)
    requires forall i :: 0 <= i < |space| ==> IsSpace(space[i])
    requires body != "" && !IsSpace(body[|body| - 1])
    ensures TrimEnd(body + space) == body
  {
    hide IsSpace, TrimEnd;
    var s := body + space;
    var n := |TrimEnd(s)|;
    assert s[|body| - 1] == body[|body| - 1];
    assert n >= |body|;
    assert forall i :: |body| <= i < |s| ==> s[i] == space[i - |body|];
    assert TrimEnd(s)[n - 1] == s[n - 1];
    assert s[..|body|] == body;
  }

  lemma {:induction false} TrimWithout(s: string, c: char)
    requires Without(s, c)
    ensures Without(Trim(s), c)
  {
    var suffix := TrimStart(s);
    assert Without(suffix, c) by {
      assert suffix == s[|s| - |suffix|..];
    }
    assert Trim(s) == suffix[..|Trim(s)|];
  }

  /** The line without its terminator. */
  function TrimEol(s: string): (t: string)
    ensures |t| <= |s| && t == s[..|t|]
    ensures |t| > 0 ==> !IsEol(t[|t| - 1])
    ensures forall i :: |t| <= i < |s| ==> IsEol(s[i])
  {
    if |s| > 0 && IsEol(s[|s| - 1]) then TrimEol(s[..|s| - 1]) else s
  }

  lemma {:induction false} TrimEolIs(body: string, eol: string)
    requires |body| > 0 ==> !IsEol(body[|body| - 1])
    requires forall i :: 0 <= i < |eol| ==> IsEol(eol[i])
    ensures TrimEol(body + eol) == body
  {
    if |eol| > 0 {
      var n := |eol| - 1;
      assert (body + eol)[..|body| + n] == body + eol[..n];
      TrimEolIs(body, eol[..n]);
    } else {
      assert body + eol == body;
    }
  }

  lemma {:induction false} TrimEolMore(text: string, eol: string)
    requires forall i :: 0 <= i < |eol| ==> IsEol(eol[i])
    ensures TrimEol(text + eol) == TrimEol(text)
  {
    var t := TrimEol(text);
    assert text + eol == t + (text[|t|..] + eol);
    TrimEolIs(t, text[|t|..] + eol);
  }

  lemma {:induction false} TrimEolBehind(front: string, text: string)
    requires front != "" && !IsEol(front[|front| - 1])
    ensures TrimEol(front + text) == front + TrimEol(text)
  {
    var t := TrimEol(text);
    assert front + text == (front + t) + text[|t|..];
    TrimEolIs(front + t, text[|t|..]);
  }

  // ----- Splitting at a separator -----

  function Split(s: string, c: char): (parts: seq<string>)
    ensures |parts| > 0
    ensures forall i :: 0 <= i < |parts| ==> Without(parts[i], c)
    decreases |s|
  {
    var i := IndexOf(s, c);
    if i == |s| then [s] else [s[..i]] + Split(s[i + 1..], c)
  }

  function Join(parts: seq<string>, c: char): string {
    if |parts| == 0 then ""
    else if |parts| == 1 then parts[0]
    else parts[0] + [c] + Join(parts[1..], c)
  }

  lemma {:induction false} SplitWithout(s: string, c: char, d: char)
    requires Without(s, d)
    ensures forall i :: 0 <= i < |Split(s, c)| ==> Without(Split(s, c)[i], d)
    decreases |s|
  {
    var i := IndexOf(s, c);
    if i < |s| {
      SplitWithout(s[i + 1..], c, d);
    }
  }

  lemma {:induction false} JoinWithout(parts: seq<string>, c: char, d: char)
    requires c != d && forall i :: 0 <= i < |parts| ==> Without(parts[i], d)
    ensures Without(Join(parts, c), d)
  {
    if |parts| > 1 {
      JoinWithout(parts[1..], c, d);
    }
  }

  lemma {:induction false} SplitJoin(parts: seq<string>, c: char)
    requires |parts| > 0 && forall i :: 0 <= i < |parts| ==> Without(parts[i], c)
    ensures Split(Join(parts, c), c) == parts
  {
    var s := Join(parts, c);
    if |parts| == 1 {
      IndexOfIs(s, c, |s|);
    } else {
      var i := |parts[0]|;
      assert s[..i] == parts[0] && s[i + 1..] == Join(parts[1..], c);
      IndexOfIs(s, c, i);
      SplitJoin(parts[1..], c);
    }
  }

  // ----- Lines with their terminators -----

  function Lines(s: string): seq<string>
    decreases |s|
  {
    var i := IndexOf(s, '\n');
    if |s| == 0 then []
    else if i == |s| then [s]
    else [s[..i + 1]] + Lines(s[i + 1..])
  }

  function Concat(lines: seq<string>): string {
    if |lines| == 0 then "" else lines[0] + Concat(lines[1..])
  }

  /** A piece that `Lines` may yield: a line feed stands at its end or nowhere. */
  predicate IsLine(line: string) {
    |line| > 0 && forall k :: 0 <= k < |line| - 1 ==> line[k] != '\n'
  }

  predicate Terminated(line: string) {
    |line| > 0 && line[|line| - 1] == '\n'
  }

  /** Every piece is a line and only the last may lack its terminator. */
  predicate AreLines(lines: seq<string>) {
    forall i :: 0 <= i < |lines| ==> IsLine(lines[i]) && (i < |lines| - 1 ==> Terminated(lines[i]))
  }

  lemma {:induction false} FirstLine(line: string, rest: string)
    requires IsLine(line) && (rest != "" ==> Terminated(line))
    ensures Lines(line + rest) == [line] + Lines(rest)
  {
    var s := line + rest;
    var n := |line| - 1;
    if Terminated(line) {
      IndexOfIs(s, '\n', n);
      assert s[..n + 1] == line && s[n + 1..] == rest;
    } else {
      assert s == line;
      IndexOfIs(s, '\n', |s|);
    }
  }

  lemma {:induction false} AreLinesCons(line: string, lines: seq<string>)
    requires IsLine(line) && AreLines(lines) && (lines != [] ==> Terminated(line))
    ensures AreLines([line] + lines)
  {
  }

  lemma {:induction false} ConcatCons(line: string, lines: seq<string>)
    ensures Concat([line] + lines) == line + Concat(lines)
  {
    assert ([line] + lines)[1..] == lines;
  }

  /** Splitting loses nothing. */
  lemma {:induction false} ConcatLines(s: string)
    ensures Concat(Lines(s)) == s
    decreases |s|
  {
    hide IndexOf;
    var i := IndexOf(s, '\n');
    if i < |s| {
      var line, rest := s[..i + 1], s[i + 1..];
      ConcatLines(rest);
      ConcatCons(line, Lines(rest));
      assert line + rest == s;
    } else if |s| > 0 {
      assert Concat([s]) == s + Concat([]);
    }
  }

  lemma {:induction false} LinesAreLines(s: string)
    ensures AreLines(Lines(s))
    decreases |s|
  {
    var i := IndexOf(s, '\n');
    if i < |s| {
      LinesAreLines(s[i + 1..]);
      AreLinesCons(s[..i + 1], Lines(s[i + 1..]));
    }
  }

  /** Lines that were put together come apart again. */
  lemma {:induction false} LinesConcat(lines: seq<string>)
    requires AreLines(lines)
    ensures Lines(Concat(lines)) == lines
  {
    if |lines| > 0 {
      LinesConcat(lines[1..]);
      assert |lines| == 1 ==> Concat(lines[1..]) == "";
      FirstLine(lines[0], Concat(lines[1..]));
    }
  }

  lemma {:induction false} ConcatAppend(a: seq<string>, b: seq<string>)
    ensures Concat(a + b) == Concat(a) + Concat(b)
  {
    if |a| == 0 {
      assert a + b == b;
    } else {
      ConcatAppend(a[1..], b);
      assert (a + b)[1..] == a[1..] + b;
    }
  }
}
