/** Rewriting the Opus fmtp line of an SDP offer (relay/src/rtc/handshake.rs, `munge_opus_params`). */
module OpusSdp {
  import opened Basics
  import opened Text
  import opened FmtpParams

  // ----- The wanted parameters -----

  function Digit(n: nat): char
    requires n < 10
  {
    ['0', '1', '2', '3', '4', '5', '6', '7', '8', '9'][n]
  }

  function Decimal(n: nat): (s: string)
    ensures s != "" && forall k :: 0 <= k < |s| ==> '0' <= s[k] <= '9'
  {
    if n < 10 then [Digit(n)] else Decimal(n / 10) + [Digit(n % 10)]
  }

  function Wanted(stereo: bool, bitrate: nat): (wanted: seq<Param>)
    ensures |wanted| == 5
  {
    var channels := if stereo then "1" else "0";
    [Param("minptime", "10"), Param("useinbandfec", "0"), Param("sprop-stereo", channels), Param("stereo", channels),
     Param("maxaveragebitrate", Decimal(bitrate))]
  }

  /** A character of the wanted keys and values. */
  predicate Plain(c: char) {
    'a' <= c <= 'z' || '0' <= c <= '9' || c == '-'
  }

  predicate AllPlain(s: string) {
    s != "" && forall k :: 0 <= k < |s| ==> Plain(s[k])
  }

  lemma {:induction false} PlainIsWanted(p: Param)
    requires AllPlain(p.key) && AllPlain(p.value)
    ensures IsWanted(p) && Without(p.key, '\n') && Without(p.value, '\n')
    ensures Without(p.key, '\r') && Without(p.value, '\r')
  {
    var t := p.key + "=" + p.value;
    assert t[0] == p.key[0] && t[|t| - 1] == p.value[|p.value| - 1];
  }

  lemma {:induction false} KeysArePlain()
    ensures AllPlain("minptime") && AllPlain("useinbandfec") && AllPlain("sprop-stereo")
    ensures AllPlain("stereo") && AllPlain("maxaveragebitrate")
  {
  }

  lemma {:induction false} KeysDiffer(wanted: seq<Param>)
    requires |wanted| == 5 && wanted[0].key == "minptime" && wanted[1].key == "useinbandfec"
    requires wanted[2].key == "sprop-stereo" && wanted[3].key == "stereo" && wanted[4].key == "maxaveragebitrate"
    ensures DistinctKeys(wanted)
  {
    assert |wanted[0].key| == 8 && |wanted[1].key| == 12 && |wanted[2].key| == 12 && |wanted[3].key| == 6;
    assert |wanted[4].key| == 17 && wanted[1].key[0] == 'u' && wanted[2].key[0] == 's';
  }

  lemma {:induction false} WantedIsProper(stereo: bool, bitrate: nat)
    ensures AreWanted(Wanted(stereo, bitrate))
    ensures Lacks(Wanted(stereo, bitrate), '\n') && Lacks(Wanted(stereo, bitrate), '\r')
  {
    var wanted := Wanted(stereo, bitrate);
    KeysArePlain();
    KeysDiffer(wanted);
    forall i | 0 <= i < 5
      ensures IsWanted(wanted[i]) && Without(wanted[i].key, '\n') && Without(wanted[i].value, '\n')
      ensures Without(wanted[i].key, '\r') && Without(wanted[i].value, '\r')
    {
      PlainIsWanted(wanted[i]);
    }
  }

  // ----- Finding the Opus lines -----

  function Lower(s: string): (t: string)
    ensures |t| == |s|
  {
    seq(|s|, i requires 0 <= i < |s| => if 'A' <= s[i] <= 'Z' then s[i] - 'A' + 'a' else s[i])
  }

  /** The payload type, if the line maps one to Opus. */
  function OpusMapping(line: string): Option<string> {
    var t := Trim(line);
    if !StartsWith(t, "a=rtpmap:") then None
    else
      var rest := t[9..];
      var i := IndexOf(rest, ' ');
      if i < |rest| && StartsWith(Lower(rest[i + 1..]), "opus/") then Some(rest[..i]) else None
  }

  function PayloadType(lines: seq<string>): Option<string> {
    if |lines| == 0 then None
    else if OpusMapping(lines[0]).Some? then OpusMapping(lines[0])
    else PayloadType(lines[1..])
  }

  function FmtpPrefix(pt: string): string {
    "a=fmtp:" + pt + " "
  }

  function RtpmapPrefix(pt: string): string {
    "a=rtpmap:" + pt + " "
  }

  predicate IsFmtp(line: string, pt: string) {
    StartsWith(TrimEol(line), FmtpPrefix(pt))
  }

  predicate IsRtpmap(line: string, pt: string) {
    StartsWith(TrimEol(line), RtpmapPrefix(pt))
  }

  /** The parameter text of an fmtp line. */
  function Existing(line: string, pt: string): string
    requires IsFmtp(line, pt)
  {
    TrimEol(line)[|FmtpPrefix(pt)|..]
  }

  function Eol(line: string): string {
    line[|TrimEol(line)|..]
  }

  predicate HasFmtp(lines: seq<string>, pt: string) {
    |lines| > 0 && (IsFmtp(lines[0], pt) || HasFmtp(lines[1..], pt))
  }

  // ----- What the rewriting means, line by line -----

  function Rewrite(line: string, pt: string, wanted: seq<Param>): string {
    if IsFmtp(line, pt) then FmtpPrefix(pt) + Merge(Existing(line, pt), wanted) + Eol(line) else line
  }

  function RewriteAll(lines: seq<string>, pt: string, wanted: seq<Param>): seq<string> {
    if |lines| == 0 then [] else [Rewrite(lines[0], pt, wanted)] + RewriteAll(lines[1..], pt, wanted)
  }

  /** The line to add behind an rtpmap line. */
  function NewLine(line: string, pt: string, wanted: seq<Param>): string {
    FmtpPrefix(pt) + Print(wanted) + (if |line| >= 2 && line[|line| - 2..] == "\r\n" then "\r\n" else "\n")
  }

  function Insert(line: string, pt: string, wanted: seq<Param>): seq<string> {
    if IsRtpmap(line, pt) then [line, NewLine(line, pt, wanted)] else [line]
  }

  function InsertAll(lines: seq<string>, pt: string, wanted: seq<Param>): seq<string> {
    if |lines| == 0 then [] else Insert(lines[0], pt, wanted) + InsertAll(lines[1..], pt, wanted)
  }

  function MungedLines(lines: seq<string>, wanted: seq<Param>): seq<string> {
    match PayloadType(lines)
    case None => lines
    case Some(pt) => if HasFmtp(lines, pt) then RewriteAll(lines, pt, wanted) else InsertAll(lines, pt, wanted)
  }

  function Munge(sdp: string, wanted: seq<Param>): string {
    Concat(MungedLines(Lines(sdp), wanted))
  }

  // ----- The loops -----

  lemma {:induction false} ConcatSnoc(lines: seq<string>, line: string)
    ensures Concat(lines + [line]) == Concat(lines) + line
  {
    ConcatAppend(lines, [line]);
    assert Concat([line]) == line + Concat([]);
  }

  lemma {:induction false} InsertSnoc(lines: seq<string>, line: string, pt: string, wanted: seq<Param>)
    ensures InsertAll(lines + [line], pt, wanted) == InsertAll(lines, pt, wanted) + Insert(line, pt, wanted)
  {
    hide Insert;
    if |lines| == 0 {
      assert lines + [line] == [line];
      assert InsertAll([line], pt, wanted) == Insert(line, pt, wanted) + InsertAll([], pt, wanted);
    } else {
      var first, rest := Insert(lines[0], pt, wanted), lines[1..];
      InsertSnoc(rest, line, pt, wanted);
      assert (lines + [line])[1..] == rest + [line];
      assert InsertAll(lines + [line], pt, wanted) == first + InsertAll(rest + [line], pt, wanted);
    }
  }

  lemma {:induction false} InsertStep(lines: seq<string>, i: nat, pt: string, wanted: seq<Param>)
    requires i < |lines|
    ensures Concat(InsertAll(lines[..i + 1], pt, wanted))
         == Concat(InsertAll(lines[..i], pt, wanted)) + Concat(Insert(lines[i], pt, wanted))
  {
    assert lines[..i + 1] == lines[..i] + [lines[i]];
    InsertSnoc(lines[..i], lines[i], pt, wanted);
    ConcatAppend(InsertAll(lines[..i], pt, wanted), Insert(lines[i], pt, wanted));
  }

  lemma {:induction false} RewriteSnoc(lines: seq<string>, line: string, pt: string, wanted: seq<Param>)
    ensures RewriteAll(lines + [line], pt, wanted) == RewriteAll(lines, pt, wanted) + [Rewrite(line, pt, wanted)]
    ensures HasFmtp(lines + [line], pt) <==> HasFmtp(lines, pt) || IsFmtp(line, pt)
  {
    hide Rewrite, IsFmtp;
    if |lines| == 0 {
      assert lines + [line] == [line];
    } else {
      RewriteSnoc(lines[1..], line, pt, wanted);
      assert (lines + [line])[1..] == lines[1..] + [line];
    }
  }

  lemma {:induction false} RewriteStep(lines: seq<string>, i: nat, pt: string, wanted: seq<Param>)
    requires i < |lines|
    ensures Concat(RewriteAll(lines[..i + 1], pt, wanted))
         == Concat(RewriteAll(lines[..i], pt, wanted)) + Rewrite(lines[i], pt, wanted)
    ensures HasFmtp(lines[..i + 1], pt) <==> HasFmtp(lines[..i], pt) || IsFmtp(lines[i], pt)
  {
    assert lines[..i + 1] == lines[..i] + [lines[i]];
    RewriteSnoc(lines[..i], lines[i], pt, wanted);
    ConcatSnoc(RewriteAll(lines[..i], pt, wanted), Rewrite(lines[i], pt, wanted));
  }

  lemma {:induction false} RewriteNone(lines: seq<string>, pt: string, wanted: seq<Param>)
    requires !HasFmtp(lines, pt)
    ensures RewriteAll(lines, pt, wanted) == lines
  {
    if |lines| > 0 {
      RewriteNone(lines[1..], pt, wanted);
    }
  }

  method FindPayloadType(lines: seq<string>) returns (pt: Option<string>)
    ensures pt == PayloadType(lines)
  {
    var i := 0;
    while i < |lines|
      invariant i <= |lines| && PayloadType(lines) == PayloadType(lines[i..])
    {
      pt := OpusMapping(lines[i]);
      if pt.Some? {
        return;
      }
      i := i + 1;
    }
    pt := None;
  }

  method RewriteLine(line: string, pt: string, wanted: seq<Param>) returns (out: string, fmtp: bool)
    ensures out == Rewrite(line, pt, wanted) && fmtp == IsFmtp(line, pt)
  {
    var body := TrimEol(line);
    fmtp := StartsWith(body, FmtpPrefix(pt));
    if fmtp {
      var merged := MergeParams(body[|FmtpPrefix(pt)|..], wanted);
      out := FmtpPrefix(pt) + merged + line[|body|..];
    } else {
      out := line;
    }
  }

  method RewriteLines(lines: seq<string>, pt: string, wanted: seq<Param>) returns (out: string, haveFmtp: bool)
    ensures out == Concat(RewriteAll(lines, pt, wanted)) && haveFmtp == HasFmtp(lines, pt)
  {
    out, haveFmtp := "", false;
    for i := 0 to |lines|
      invariant out == Concat(RewriteAll(lines[..i], pt, wanted))
      invariant haveFmtp == HasFmtp(lines[..i], pt)
    {
      var line, fmtp := RewriteLine(lines[i], pt, wanted);
      RewriteStep(lines, i, pt, wanted);
      haveFmtp := haveFmtp || fmtp;
      out := out + line;
    }
    assert lines[..|lines|] == lines;
  }

  lemma {:induction false} ConcatInsert(line: string, pt: string, wanted: seq<Param>)
    ensures Concat(Insert(line, pt, wanted)) == if IsRtpmap(line, pt) then line + NewLine(line, pt, wanted) else line
  {
    ConcatSnoc([], line);
    assert [] + [line] == [line];
    ConcatSnoc([line], NewLine(line, pt, wanted));
    assert [line] + [NewLine(line, pt, wanted)] == [line, NewLine(line, pt, wanted)];
  }

  method InsertLines(lines: seq<string>, pt: string, wanted: seq<Param>) returns (rebuilt: string)
    ensures rebuilt == Concat(InsertAll(lines, pt, wanted))
  {
    rebuilt := "";
    for i := 0 to |lines|
      invariant rebuilt == Concat(InsertAll(lines[..i], pt, wanted))
    {
      var line := lines[i];
      InsertStep(lines, i, pt, wanted);
      ConcatInsert(line, pt, wanted);
      var added := line;
      if IsRtpmap(line, pt) {
        added := added + NewLine(line, pt, wanted);
      }
      rebuilt := rebuilt + added;
    }
    assert lines[..|lines|] == lines;
  }

  method MungeOpusParams(sdp: string, stereo: bool, maxAverageBitrate: nat) returns (munged: string)
    ensures munged == Munge(sdp, Wanted(stereo, maxAverageBitrate))
  {
    ConcatLines(sdp);
    var pt := FindPayloadType(Lines(sdp));
    if pt.None? {
      return sdp;
    }
    var wanted := Wanted(stereo, maxAverageBitrate);
    var out, haveFmtp := RewriteLines(Lines(sdp), pt.value, wanted);
    if haveFmtp {
      return out;
    }
    RewriteNone(Lines(sdp), pt.value, wanted);
    munged := InsertLines(Lines(out), pt.value, wanted);
  }

  // ----- Lines stay lines -----

  lemma {:induction false} LineFeedIsSpace(c: char)
    requires !IsSpace(c)
    ensures c != '\n'
  {
  }

  lemma {:induction false} TrimLine(line: string)
    requires IsLine(line)
    ensures Without(Trim(line), '\n')
  {
    var suffix := TrimStart(line);
    var t := TrimEnd(suffix);
    forall k | 0 <= k < |t|
      ensures t[k] != '\n'
    {
      assert t[k] == suffix[k] == line[|line| - |suffix| + k];
      if k == |t| - 1 {
        LineFeedIsSpace(t[k]);
      }
    }
  }

  lemma {:induction false} PayloadTypeIsPlain(lines: seq<string>)
    requires AreLines(lines) && PayloadType(lines).Some?
    ensures Without(PayloadType(lines).value, '\n')
  {
    if OpusMapping(lines[0]).Some? {
      TrimLine(lines[0]);
    } else {
      PayloadTypeIsPlain(lines[1..]);
    }
  }

  lemma {:induction false} WithoutConcat(a: string, b: string, c: char)
    requires Without(a, c) && Without(b, c)
    ensures Without(a + b, c)
  {
  }

  lemma {:induction false} PrefixWithout(pt: string)
    requires Without(pt, '\n')
    ensures Without(FmtpPrefix(pt), '\n')
  {
    assert Without("a=fmtp:", '\n');
    WithoutConcat("a=fmtp:", pt, '\n');
    WithoutConcat("a=fmtp:" + pt, " ", '\n');
  }

  /** A text without line feeds becomes a line by taking over another line's terminator. */
  lemma {:induction false} NewBody(text: string, line: string)
    requires IsLine(line) && text != "" && Without(text, '\n')
    ensures IsLine(text + Eol(line)) && (Terminated(text + Eol(line)) <==> Terminated(line))
  {
    var body, eol := TrimEol(line), Eol(line);
    var added := text + eol;
    assert forall k :: |text| <= k < |added| ==> added[k] == line[|body| + k - |text|];
    if |eol| == 0 {
      assert added == text && line == body;
    } else {
      assert added[|added| - 1] == line[|line| - 1];
    }
  }

  lemma {:induction false} RewriteIsLine(line: string, pt: string, wanted: seq<Param>)
    requires IsLine(line) && Without(pt, '\n') && Lacks(wanted, '\n')
    ensures IsLine(Rewrite(line, pt, wanted)) && (Terminated(Rewrite(line, pt, wanted)) <==> Terminated(line))
  {
    hide Merge;
    if IsFmtp(line, pt) {
      var merged := Merge(Existing(line, pt), wanted);
      assert Without(TrimEol(line), '\n');
      assert Without(Existing(line, pt), '\n');
      MergeLacks(Existing(line, pt), wanted, '\n');
      PrefixWithout(pt);
      WithoutConcat(FmtpPrefix(pt), merged, '\n');
      NewBody(FmtpPrefix(pt) + merged, line);
    }
  }

  lemma {:induction false} NewLineIsLine(line: string, pt: string, wanted: seq<Param>)
    requires Without(pt, '\n') && Lacks(wanted, '\n')
    ensures IsLine(NewLine(line, pt, wanted)) && Terminated(NewLine(line, pt, wanted))
  {
    PrintLacks(wanted, '\n');
    PrefixWithout(pt);
    WithoutConcat(FmtpPrefix(pt), Print(wanted), '\n');
  }

  lemma {:induction false} RewriteAllAreLines(lines: seq<string>, pt: string, wanted: seq<Param>)
    requires AreLines(lines) && Without(pt, '\n') && Lacks(wanted, '\n')
    ensures AreLines(RewriteAll(lines, pt, wanted))
  {
    if |lines| > 0 {
      RewriteIsLine(lines[0], pt, wanted);
      RewriteAllAreLines(lines[1..], pt, wanted);
      AreLinesCons(Rewrite(lines[0], pt, wanted), RewriteAll(lines[1..], pt, wanted));
    }
  }

  /** Nothing is to be added behind an unterminated line. */
  predicate Insertable(lines: seq<string>, pt: string) {
    |lines| > 0 && IsRtpmap(lines[|lines| - 1], pt) ==> Terminated(lines[|lines| - 1])
  }

  lemma {:induction false} InsertAllAreLines(lines: seq<string>, pt: string, wanted: seq<Param>)
    requires AreLines(lines) && Without(pt, '\n') && Lacks(wanted, '\n') && Insertable(lines, pt)
    ensures AreLines(InsertAll(lines, pt, wanted))
  {
    if |lines| > 0 {
      var line, rest := lines[0], InsertAll(lines[1..], pt, wanted);
      InsertAllAreLines(lines[1..], pt, wanted);
      if IsRtpmap(line, pt) {
        var added := NewLine(line, pt, wanted);
        NewLineIsLine(line, pt, wanted);
        AreLinesCons(added, rest);
        AreLinesCons(line, [added] + rest);
        assert [line, added] + rest == [line] + ([added] + rest);
      } else {
        AreLinesCons(line, rest);
      }
    }
  }

  lemma {:induction false} InsertAllGlues(lines: seq<string>, pt: string, wanted: seq<Param>)
    requires !Insertable(lines, pt)
    ensures !AreLines(InsertAll(lines, pt, wanted))
  {
    hide IsRtpmap, NewLine, InsertAll, IsLine;
    var n := |lines| - 1;
    InsertSnoc(lines[..n], lines[n], pt, wanted);
    assert lines[..n] + [lines[n]] == lines;
    var all := InsertAll(lines, pt, wanted);
    assert all[|all| - 2] == lines[n];
  }

  /** No line has to be added behind an unterminated one. */
  predicate Safe(lines: seq<string>) {
    var pt := PayloadType(lines);
    pt.Some? && !HasFmtp(lines, pt.value) ==> Insertable(lines, pt.value)
  }

  /**
   The lines of the rewritten text are the lines the rewriting means, if and only if it does
   not have to add a line behind an rtpmap line that lacks its terminator.
   */
  lemma {:induction false} MungeKeepsLines(sdp: string, wanted: seq<Param>)
    requires Lacks(wanted, '\n')
    ensures Lines(Munge(sdp, wanted)) == MungedLines(Lines(sdp), wanted) <==> Safe(Lines(sdp))
  {
    hide PayloadType, HasFmtp, Lines, RewriteAll, InsertAll, Concat, IsRtpmap;
    var lines := Lines(sdp);
    LinesAreLines(sdp);
    LinesAreLines(Munge(sdp, wanted));
    match PayloadType(lines) {
      case None => LinesConcat(lines);
      case Some(pt) =>
        PayloadTypeIsPlain(lines);
        if HasFmtp(lines, pt) {
          RewriteAllAreLines(lines, pt, wanted);
          LinesConcat(RewriteAll(lines, pt, wanted));
        } else if Insertable(lines, pt) {
          InsertAllAreLines(lines, pt, wanted);
          LinesConcat(InsertAll(lines, pt, wanted));
        } else {
          InsertAllGlues(lines, pt, wanted);
        }
    }
  }

  lemma {:induction false} SingleLine(line: string)
    requires IsLine(line)
    ensures Lines(line) == [line]
  {
    FirstLine(line, "");
    assert line + "" == line && [line] + [] == [line];
  }

  lemma {:induction false} SingleMapping(line: string, pt: string, wanted: seq<Param>)
    requires OpusMapping(line) == Some(pt) && IsRtpmap(line, pt) && !IsFmtp(line, pt)
    ensures PayloadType([line]) == Some(pt) && !HasFmtp([line], pt)
    ensures MungedLines([line], wanted) == Insert(line, pt, wanted)
  {
    assert InsertAll([line], pt, wanted) == Insert(line, pt, wanted) + InsertAll([], pt, wanted);
  }

  /** An offer that is an unterminated Opus mapping: the mapping line runs on into the parameters. */
  lemma {:induction false} UnterminatedMappingRunsOn(line: string, pt: string, wanted: seq<Param>)
    requires IsLine(line) && !Terminated(line) && Without(pt, '\n') && Lacks(wanted, '\n')
    requires OpusMapping(line) == Some(pt) && IsRtpmap(line, pt) && !IsFmtp(line, pt)
    ensures !Safe(Lines(line))
    ensures Lines(Munge(line, wanted)) == [line + NewLine(line, pt, wanted)]
  {
    hide NewLine, OpusMapping, IsRtpmap, IsFmtp, Lines, Concat, IsLine;
    SingleLine(line);
    SingleMapping(line, pt, wanted);
    ConcatInsert(line, pt, wanted);
    NewLineIsLine(line, pt, wanted);
    GluedIsLine(line, NewLine(line, pt, wanted));
    SingleLine(line + NewLine(line, pt, wanted));
  }

  /** Such offers exist. */
  lemma {:induction false} UnterminatedMappingExists()
    ensures var line := "a=rtpmap:9 opus/";
            IsLine(line) && !Terminated(line) && OpusMapping(line) == Some("9") && IsRtpmap(line, "9") && !IsFmtp(line, "9")
  {
    var line := "a=rtpmap:9 opus/";
    assert Trimmed(line) && TrimEol(line) == line;
    var rest := line[9..];
    assert rest[0] == '9' && rest[1] == ' ';
    IndexOfIs(rest, ' ', 1);
    assert rest[..1] == "9";
    assert Lower(rest[2..]) == "opus/";
    assert line[2] == 'r' && FmtpPrefix("9")[2] == 'f';
  }

  // ----- What changes and what does not -----

  /** The lines that are not fmtp lines of the payload type, in order. */
  function Others(lines: seq<string>, pt: string): seq<string> {
    if |lines| == 0 then []
    else (if IsFmtp(lines[0], pt) then [] else [lines[0]]) + Others(lines[1..], pt)
  }

  lemma {:induction false} StartsFmtp(text: string, pt: string, rest: string)
    requires text == FmtpPrefix(pt) + rest
    ensures IsFmtp(text, pt)
  {
    var t := TrimEol(text);
    var n := |FmtpPrefix(pt)|;
    assert text[n - 1] == ' ';
    assert n <= |t|;
    assert t[..n] == text[..n];
  }

  lemma {:induction false} RewriteIsFmtp(line: string, pt: string, wanted: seq<Param>)
    ensures IsFmtp(Rewrite(line, pt, wanted), pt) <==> IsFmtp(line, pt)
  {
    hide Merge, FmtpPrefix, IsFmtp, Eol, Existing;
    if IsFmtp(line, pt) {
      var rest := Merge(Existing(line, pt), wanted) + Eol(line);
      assert Rewrite(line, pt, wanted) == FmtpPrefix(pt) + rest;
      StartsFmtp(Rewrite(line, pt, wanted), pt, rest);
    }
  }

  lemma {:induction false} NewLineIsFmtp(line: string, pt: string, wanted: seq<Param>)
    ensures IsFmtp(NewLine(line, pt, wanted), pt)
  {
    var added := NewLine(line, pt, wanted);
    StartsFmtp(added, pt, added[|FmtpPrefix(pt)|..]);
  }

  lemma {:induction false} OthersCons(line: string, rest: seq<string>, pt: string)
    ensures Others([line] + rest, pt) == (if IsFmtp(line, pt) then [] else [line]) + Others(rest, pt)
  {
    assert ([line] + rest)[1..] == rest;
  }

  lemma {:induction false} RewriteKeepsOthers(lines: seq<string>, pt: string, wanted: seq<Param>)
    ensures Others(RewriteAll(lines, pt, wanted), pt) == Others(lines, pt)
  {
    hide Rewrite, IsFmtp;
    if |lines| > 0 {
      if !IsFmtp(lines[0], pt) {
        RewriteOther(lines[0], pt, wanted);
      }
      RewriteKeepsOthers(lines[1..], pt, wanted);
      RewriteIsFmtp(lines[0], pt, wanted);
      OthersCons(Rewrite(lines[0], pt, wanted), RewriteAll(lines[1..], pt, wanted), pt);
    }
  }

  lemma {:induction false} InsertKeepsOthers(lines: seq<string>, pt: string, wanted: seq<Param>)
    ensures Others(InsertAll(lines, pt, wanted), pt) == Others(lines, pt)
  {
    hide IsFmtp, NewLine, IsRtpmap;
    if |lines| > 0 {
      var line, rest := lines[0], InsertAll(lines[1..], pt, wanted);
      InsertKeepsOthers(lines[1..], pt, wanted);
      if IsRtpmap(line, pt) {
        var added := NewLine(line, pt, wanted);
        NewLineIsFmtp(line, pt, wanted);
        OthersCons(added, rest, pt);
        OthersCons(line, [added] + rest, pt);
        assert [line, added] + rest == [line] + ([added] + rest);
      } else {
        OthersCons(line, rest, pt);
      }
    }
  }

  /** Every line that is not an fmtp line of Opus stays, byte for byte and in order; without Opus all do. */
  lemma {:induction false} OtherLinesStay(sdp: string, wanted: seq<Param>)
    requires Lacks(wanted, '\n') && Safe(Lines(sdp))
    ensures PayloadType(Lines(sdp)).None? ==> Munge(sdp, wanted) == sdp
    ensures PayloadType(Lines(sdp)).Some? ==>
              var pt := PayloadType(Lines(sdp)).value; Others(Lines(Munge(sdp, wanted)), pt) == Others(Lines(sdp), pt)
  {
    hide PayloadType, HasFmtp, Lines, RewriteAll, InsertAll, IsFmtp;
    MungeKeepsLines(sdp, wanted);
    match PayloadType(Lines(sdp)) {
      case None => ConcatLines(sdp);
      case Some(pt) =>
        RewriteKeepsOthers(Lines(sdp), pt, wanted);
        InsertKeepsOthers(Lines(sdp), pt, wanted);
    }
  }

  /** A rewritten line holds the merged parameters, if they do not end in a stray terminator. */
  lemma {:induction false} RewrittenParts(line: string, pt: string, wanted: seq<Param>)
    requires IsFmtp(line, pt)
    requires var merged := Merge(Existing(line, pt), wanted); merged != "" ==> !IsEol(merged[|merged| - 1])
    ensures var r := Rewrite(line, pt, wanted);
            IsFmtp(r, pt) && Existing(r, pt) == Merge(Existing(line, pt), wanted) && Eol(r) == Eol(line)
  {
    var body := FmtpPrefix(pt) + Merge(Existing(line, pt), wanted);
    assert body[|FmtpPrefix(pt)|..] == Merge(Existing(line, pt), wanted);
    TrimEolIs(body, Eol(line));
    RewriteIsFmtp(line, pt, wanted);
  }

  /**
   A rewritten line binds the first occurrence of every wanted key to its wanted value, adds no
   duplicate, and keeps the unrelated parameters in order.
   */
  lemma {:induction false} RewrittenParameters(line: string, pt: string, wanted: seq<Param>)
    requires AreWanted(wanted) && |wanted| > 0
    requires IsFmtp(line, pt) && AllStable(Parse(Existing(line, pt)))
    ensures IsFmtp(Rewrite(line, pt, wanted), pt)
    ensures var before, after := Parse(Existing(line, pt)), Parse(Existing(Rewrite(line, pt, wanted), pt));
            && Unrelated(after, wanted) == Unrelated(before, wanted)
            && forall i :: 0 <= i < |wanted| ==>
                 && Lookup(after, wanted[i].key) == Some(wanted[i].value)
                 && Count(after, wanted[i].key) == Max(1, Count(before, wanted[i].key))
  {
    hide Rewrite, Merge, Parse, IsFmtp, Merged;
    var before := Parse(Existing(line, pt));
    MergeEnds(Existing(line, pt), wanted);
    RewrittenParts(line, pt, wanted);
    MergeReadsBack(Existing(line, pt), wanted);
    MergedKeepsUnrelated(before, wanted);
    forall i | 0 <= i < |wanted|
      ensures Lookup(Merged(before, wanted), wanted[i].key) == Some(wanted[i].value)
      ensures Count(Merged(before, wanted), wanted[i].key) == Max(1, Count(before, wanted[i].key))
    {
      MergedBinds(before, wanted, i);
    }
  }

  lemma {:induction false} AddedParts(line: string, pt: string, wanted: seq<Param>)
    requires Print(wanted) != "" && !IsEol(Print(wanted)[|Print(wanted)| - 1])
    ensures TrimEol(NewLine(line, pt, wanted)) == FmtpPrefix(pt) + Print(wanted)
  {
    var eol := if |line| >= 2 && line[|line| - 2..] == "\r\n" then "\r\n" else "\n";
    TrimEolIs(FmtpPrefix(pt) + Print(wanted), eol);
  }

  /** An added line holds exactly the wanted parameters. */
  lemma {:induction false} AddedParameters(line: string, pt: string, wanted: seq<Param>)
    requires AreWanted(wanted) && |wanted| > 0
    ensures var added := NewLine(line, pt, wanted);
            IsFmtp(added, pt) && Existing(added, pt) == Print(wanted) && Parse(Existing(added, pt)) == wanted
  {
    NewLineIsFmtp(line, pt, wanted);
    PrintEnds(wanted);
    AddedParts(line, pt, wanted);
    WantedIsMerged(wanted);
  }

  // ----- Twice is once -----

  lemma {:induction false} TrimFront(line: string)
    requires line != "" && !IsSpace(line[0])
    ensures Trim(line) <= line
  {
    assert TrimStart(line) == line;
  }

  lemma {:induction false} NoMapping(line: string)
    requires |line| > 2 && line[2] == 'f' && Trim(line) <= line
    ensures OpusMapping(line).None?
  {
    hide Trim, Lower, IndexOf;
    assert "a=rtpmap:"[2] == 'r';
  }

  lemma {:induction false} FmtpStarts(line: string, pt: string)
    requires IsFmtp(line, pt)
    ensures |line| > 2 && line[0] == 'a' && line[2] == 'f'
  {
    hide TrimEol;
    assert FmtpPrefix(pt)[0] == 'a' && FmtpPrefix(pt)[2] == 'f';
    assert TrimEol(line)[..|FmtpPrefix(pt)|][2] == 'f';
  }

  lemma {:induction false} FmtpMapsNothing(line: string, pt: string)
    requires IsFmtp(line, pt)
    ensures OpusMapping(line).None?
  {
    hide IsFmtp, Trim, OpusMapping;
    FmtpStarts(line, pt);
    TrimFront(line);
    NoMapping(line);
  }

  lemma {:induction false} PayloadTypeCons(line: string, rest: seq<string>)
    ensures PayloadType([line] + rest) == if OpusMapping(line).Some? then OpusMapping(line) else PayloadType(rest)
  {
    assert ([line] + rest)[1..] == rest;
  }

  lemma {:induction false} RewriteKeepsPayloadType(lines: seq<string>, pt: string, wanted: seq<Param>)
    ensures PayloadType(RewriteAll(lines, pt, wanted)) == PayloadType(lines)
    ensures HasFmtp(RewriteAll(lines, pt, wanted), pt) == HasFmtp(lines, pt)
  {
    hide Rewrite, IsFmtp, OpusMapping;
    if |lines| > 0 {
      if !IsFmtp(lines[0], pt) {
        RewriteOther(lines[0], pt, wanted);
      }
      var first, rest := Rewrite(lines[0], pt, wanted), RewriteAll(lines[1..], pt, wanted);
      RewriteKeepsPayloadType(lines[1..], pt, wanted);
      RewriteIsFmtp(lines[0], pt, wanted);
      if IsFmtp(lines[0], pt) {
        FmtpMapsNothing(lines[0], pt);
        FmtpMapsNothing(first, pt);
      }
      PayloadTypeCons(first, rest);
      assert ([first] + rest)[1..] == rest;
    }
  }

  lemma {:induction false} InsertKeepsPayloadType(lines: seq<string>, pt: string, wanted: seq<Param>)
    ensures PayloadType(InsertAll(lines, pt, wanted)) == PayloadType(lines)
  {
    hide IsFmtp, NewLine, IsRtpmap, OpusMapping;
    if |lines| > 0 {
      var line, rest := lines[0], InsertAll(lines[1..], pt, wanted);
      InsertKeepsPayloadType(lines[1..], pt, wanted);
      if IsRtpmap(line, pt) {
        var added := NewLine(line, pt, wanted);
        NewLineIsFmtp(line, pt, wanted);
        FmtpMapsNothing(added, pt);
        PayloadTypeCons(added, rest);
        PayloadTypeCons(line, [added] + rest);
        assert [line, added] + rest == [line] + ([added] + rest);
      } else {
        PayloadTypeCons(line, rest);
      }
    }
  }

  /** Rewriting what was just inserted changes nothing. */
  lemma {:induction false} InsertedIsRewritten(lines: seq<string>, pt: string, wanted: seq<Param>)
    requires AreWanted(wanted) && |wanted| > 0 && !HasFmtp(lines, pt)
    ensures RewriteAll(InsertAll(lines, pt, wanted), pt, wanted) == InsertAll(lines, pt, wanted)
  {
    if |lines| > 0 {
      InsertedIsRewritten(lines[1..], pt, wanted);
      InsertRewritten(lines[0], InsertAll(lines[1..], pt, wanted), pt, wanted);
    }
  }

  lemma {:induction false} RewriteOther(line: string, pt: string, wanted: seq<Param>)
    requires !IsFmtp(line, pt)
    ensures Rewrite(line, pt, wanted) == line
  {
  }

  lemma {:induction false} InsertRewritten(line: string, rest: seq<string>, pt: string, wanted: seq<Param>)
    requires AreWanted(wanted) && |wanted| > 0 && !IsFmtp(line, pt) && RewriteAll(rest, pt, wanted) == rest
    ensures RewriteAll(Insert(line, pt, wanted) + rest, pt, wanted) == Insert(line, pt, wanted) + rest
  {
    hide Rewrite, IsFmtp, NewLine, IsRtpmap;
    RewriteOther(line, pt, wanted);
    if IsRtpmap(line, pt) {
      var added := NewLine(line, pt, wanted);
      AddedIsRewritten(line, pt, wanted);
      RewriteCons(added, rest, pt, wanted);
      RewriteCons(line, [added] + rest, pt, wanted);
      assert [line, added] + rest == [line] + ([added] + rest);
    } else {
      RewriteCons(line, rest, pt, wanted);
    }
  }

  /** Inserting adds an fmtp line, or changes nothing. */
  lemma {:induction false} InsertAddsFmtp(lines: seq<string>, pt: string, wanted: seq<Param>)
    ensures HasFmtp(InsertAll(lines, pt, wanted), pt) || InsertAll(lines, pt, wanted) == lines
  {
    hide IsFmtp, NewLine, IsRtpmap;
    if |lines| > 0 {
      var line, rest := lines[0], InsertAll(lines[1..], pt, wanted);
      InsertAddsFmtp(lines[1..], pt, wanted);
      if IsRtpmap(line, pt) {
        var added := NewLine(line, pt, wanted);
        NewLineIsFmtp(line, pt, wanted);
        HasFmtpCons(added, rest, pt);
        HasFmtpCons(line, [added] + rest, pt);
        assert [line, added] + rest == [line] + ([added] + rest);
      } else {
        HasFmtpCons(line, rest, pt);
      }
    }
  }

  lemma {:induction false} HasFmtpCons(line: string, rest: seq<string>, pt: string)
    ensures HasFmtp([line] + rest, pt) == (IsFmtp(line, pt) || HasFmtp(rest, pt))
  {
    assert ([line] + rest)[1..] == rest;
  }

  lemma {:induction false} RewriteCons(line: string, rest: seq<string>, pt: string, wanted: seq<Param>)
    ensures RewriteAll([line] + rest, pt, wanted) == [Rewrite(line, pt, wanted)] + RewriteAll(rest, pt, wanted)
  {
    assert ([line] + rest)[1..] == rest;
  }

  lemma {:induction false} AddedIsRewritten(line: string, pt: string, wanted: seq<Param>)
    requires AreWanted(wanted) && |wanted| > 0
    ensures IsFmtp(NewLine(line, pt, wanted), pt)
    ensures Rewrite(NewLine(line, pt, wanted), pt, wanted) == NewLine(line, pt, wanted)
  {
    var added := NewLine(line, pt, wanted);
    AddedParameters(line, pt, wanted);
    WantedIsMerged(wanted);
    assert TrimEol(added) == FmtpPrefix(pt) + Print(wanted);
    assert added == TrimEol(added) + Eol(added);
  }

  lemma {:induction false} RewriteTwice(line: string, pt: string, wanted: seq<Param>)
    requires AreWanted(wanted) && |wanted| > 0
    requires IsFmtp(line, pt) ==> AllStable(Parse(Existing(line, pt)))
    ensures Rewrite(Rewrite(line, pt, wanted), pt, wanted) == Rewrite(line, pt, wanted)
  {
    if IsFmtp(line, pt) {
      MergeEnds(Existing(line, pt), wanted);
      RewrittenParts(line, pt, wanted);
      MergeTwice(Existing(line, pt), wanted);
    }
  }

  /** Every parameter of every Opus fmtp line reads back. */
  ghost predicate ReadsBack(lines: seq<string>, pt: string) {
    forall i :: 0 <= i < |lines| && IsFmtp(lines[i], pt) ==> AllStable(Parse(Existing(lines[i], pt)))
  }

  lemma {:induction false} RewriteAllTwice(lines: seq<string>, pt: string, wanted: seq<Param>)
    requires AreWanted(wanted) && |wanted| > 0 && ReadsBack(lines, pt)
    ensures RewriteAll(RewriteAll(lines, pt, wanted), pt, wanted) == RewriteAll(lines, pt, wanted)
  {
    if |lines| > 0 {
      RewriteAllTwice(lines[1..], pt, wanted);
      RewriteTwice(lines[0], pt, wanted);
      RewriteCons(Rewrite(lines[0], pt, wanted), RewriteAll(lines[1..], pt, wanted), pt, wanted);
    }
  }

  lemma {:induction false} MungedLinesTwice(lines: seq<string>, wanted: seq<Param>)
    requires AreWanted(wanted) && |wanted| > 0
    requires PayloadType(lines).Some? ==> ReadsBack(lines, PayloadType(lines).value)
    ensures MungedLines(MungedLines(lines, wanted), wanted) == MungedLines(lines, wanted)
  {
    hide PayloadType, HasFmtp, RewriteAll, InsertAll, IsFmtp;
    match PayloadType(lines) {
      case None =>
      case Some(pt) =>
        if HasFmtp(lines, pt) {
          RewriteKeepsPayloadType(lines, pt, wanted);
          RewriteAllTwice(lines, pt, wanted);
        } else {
          InsertKeepsPayloadType(lines, pt, wanted);
          InsertedIsRewritten(lines, pt, wanted);
          InsertAddsFmtp(lines, pt, wanted);
        }
    }
  }

  /** Rewriting an offer twice is rewriting it once. */
  lemma {:induction false} MungeIsIdempotent(sdp: string, wanted: seq<Param>)
    requires AreWanted(wanted) && |wanted| > 0 && Lacks(wanted, '\n') && Safe(Lines(sdp))
    requires PayloadType(Lines(sdp)).Some? ==> ReadsBack(Lines(sdp), PayloadType(Lines(sdp)).value)
    ensures Munge(Munge(sdp, wanted), wanted) == Munge(sdp, wanted)
  {
    hide PayloadType, HasFmtp, Lines, RewriteAll, InsertAll, IsFmtp, MungedLines;
    MungeKeepsLines(sdp, wanted);
    MungedLinesTwice(Lines(sdp), wanted);
  }

  // ----- Exactly when twice is once -----

  lemma {:induction false} Cancel(a: string, b: string, c: string, d: string)
    ensures a + b + d == a + c + d <==> b == c
  {
    if a + b + d == a + c + d {
      assert |b| == |c|;
      assert b == (a + b + d)[|a|..|a| + |b|];
      assert c == (a + c + d)[|a|..|a| + |c|];
    }
  }

  /** A rewritten line read again: a terminator at the end of the parameters joins the one of the line. */
  lemma {:induction false} RewrittenAgain(line: string, pt: string, wanted: seq<Param>)
    requires IsFmtp(line, pt)
    ensures var merged := Merge(Existing(line, pt), wanted);
            var r := Rewrite(line, pt, wanted);
            && IsFmtp(r, pt) && Existing(r, pt) == TrimEol(merged)
            && r == FmtpPrefix(pt) + TrimEol(merged) + Eol(r)
  {
    hide Merge, FmtpPrefix, IsFmtp, TrimEol;
    RewriteIsFmtp(line, pt, wanted);
    PrefixEnds(pt);
    BodyReadAgain(FmtpPrefix(pt), Merge(Existing(line, pt), wanted), Eol(line));
  }

  lemma {:induction false} PrefixEnds(pt: string)
    ensures FmtpPrefix(pt) != "" && !IsEol(FmtpPrefix(pt)[|FmtpPrefix(pt)| - 1])
  {
  }

  lemma {:induction false} BodyReadAgain(prefix: string, text: string, eol: string)
    requires prefix != "" && !IsEol(prefix[|prefix| - 1])
    requires forall i :: 0 <= i < |eol| ==> IsEol(eol[i])
    ensures var r := prefix + text + eol;
            && |prefix| <= |TrimEol(r)| <= |r| && TrimEol(r)[|prefix|..] == TrimEol(text)
            && r == prefix + TrimEol(text) + r[|TrimEol(r)|..]
  {
    hide TrimEol;
    assert prefix + text + eol == prefix + (text + eol);
    TrimEolBehind(prefix, text + eol);
    TrimEolMore(text, eol);
  }

  /** Every parameter of the rewritten line reads back. */
  predicate LineSettles(line: string, pt: string, wanted: seq<Param>)
    requires AreWanted(wanted) && |wanted| > 0
  {
    IsFmtp(line, pt) ==>
      var params := Merged(Parse(Existing(line, pt)), wanted);
      |params| > 0 && AllStable(LastTrimmed(params))
  }

  lemma {:induction false} RewriteTwiceExactlyWhen(line: string, pt: string, wanted: seq<Param>)
    requires AreWanted(wanted) && |wanted| > 0
    ensures Rewrite(Rewrite(line, pt, wanted), pt, wanted) == Rewrite(line, pt, wanted) <==> LineSettles(line, pt, wanted)
  {
    hide Merge, Parse, IsFmtp, Merged, LastTrimmed, TrimEol, Eol, Existing, FmtpPrefix;
    if IsFmtp(line, pt) {
      var text := TrimEol(Merge(Existing(line, pt), wanted));
      RewrittenAgain(line, pt, wanted);
      TrimmedMergeSettles(Existing(line, pt), wanted);
      Cancel(FmtpPrefix(pt), Merge(text, wanted), text, Eol(Rewrite(line, pt, wanted)));
    }
  }

  ghost predicate AllSettle(lines: seq<string>, pt: string, wanted: seq<Param>)
    requires AreWanted(wanted) && |wanted| > 0
  {
    forall i :: 0 <= i < |lines| ==> LineSettles(lines[i], pt, wanted)
  }

  lemma {:induction false} SameParts(a: string, x: seq<string>, b: string, y: seq<string>)
    ensures [a] + x == [b] + y <==> a == b && x == y
  {
    assert ([a] + x)[0] == a && ([b] + y)[0] == b;
    assert ([a] + x)[1..] == x && ([b] + y)[1..] == y;
  }

  lemma {:induction false} AllSettleCons(line: string, rest: seq<string>, pt: string, wanted: seq<Param>)
    requires AreWanted(wanted) && |wanted| > 0
    ensures AllSettle([line] + rest, pt, wanted) <==> LineSettles(line, pt, wanted) && AllSettle(rest, pt, wanted)
  {
    hide LineSettles, AreWanted;
    if AllSettle([line] + rest, pt, wanted) {
      assert ([line] + rest)[0] == line;
      assert forall i :: 0 <= i < |rest| ==> rest[i] == ([line] + rest)[i + 1];
    }
  }

  lemma {:induction false} RewriteAllTwiceExactlyWhen(lines: seq<string>, pt: string, wanted: seq<Param>)
    requires AreWanted(wanted) && |wanted| > 0
    ensures RewriteAll(RewriteAll(lines, pt, wanted), pt, wanted) == RewriteAll(lines, pt, wanted) <==> AllSettle(lines, pt, wanted)
  {
    hide Rewrite, IsFmtp, LineSettles, AreWanted;
    if |lines| > 0 {
      var first, rest := Rewrite(lines[0], pt, wanted), RewriteAll(lines[1..], pt, wanted);
      RewriteCons(first, rest, pt, wanted);
      SameParts(Rewrite(first, pt, wanted), RewriteAll(rest, pt, wanted), first, rest);
      RewriteAllTwiceExactlyWhen(lines[1..], pt, wanted);
      RewriteTwiceExactlyWhen(lines[0], pt, wanted);
      AllSettleCons(lines[0], lines[1..], pt, wanted);
      assert lines == [lines[0]] + lines[1..];
    }
  }

  /** With Opus parameters in the offer: exactly when every Opus fmtp line settles. */
  lemma {:induction false} RewritingTwice(sdp: string, pt: string, wanted: seq<Param>)
    requires AreWanted(wanted) && |wanted| > 0 && Lacks(wanted, '\n')
    requires PayloadType(Lines(sdp)) == Some(pt) && HasFmtp(Lines(sdp), pt)
    ensures Munge(Munge(sdp, wanted), wanted) == Munge(sdp, wanted) <==> AllSettle(Lines(sdp), pt, wanted)
  {
    hide IsFmtp, PayloadType, HasFmtp, Lines, RewriteAll, InsertAll, Concat, AllSettle, AreWanted;
    var lines := Lines(sdp);
    MungeKeepsLines(sdp, wanted);
    RewriteKeepsPayloadType(lines, pt, wanted);
    MungeKeepsLines(Munge(sdp, wanted), wanted);
    RewriteAllTwiceExactlyWhen(lines, pt, wanted);
  }

  lemma {:induction false} NoFmtpReadsBack(lines: seq<string>, pt: string)
    requires !HasFmtp(lines, pt)
    ensures ReadsBack(lines, pt)
  {
    hide IsFmtp, Existing, AllStable, Parse;
    if |lines| > 0 {
      NoFmtpReadsBack(lines[1..], pt);
    }
  }

  // ----- An unterminated last line -----

  predicate AllTerminated(lines: seq<string>) {
    forall i :: 0 <= i < |lines| ==> IsLine(lines[i]) && Terminated(lines[i])
  }

  lemma {:induction false} InsertAllTerminated(lines: seq<string>, pt: string, wanted: seq<Param>)
    requires AllTerminated(lines) && Without(pt, '\n') && Lacks(wanted, '\n')
    ensures AllTerminated(InsertAll(lines, pt, wanted))
  {
    hide IsRtpmap, NewLine, IsLine, Terminated;
    if |lines| > 0 {
      InsertAllTerminated(lines[1..], pt, wanted);
      NewLineIsLine(lines[0], pt, wanted);
    }
  }

  lemma {:induction false} InsertNone(lines: seq<string>, pt: string, wanted: seq<Param>)
    requires forall i :: 0 <= i < |lines| ==> !IsRtpmap(lines[i], pt)
    ensures InsertAll(lines, pt, wanted) == lines
  {
    hide IsRtpmap;
    if |lines| > 0 {
      InsertNone(lines[1..], pt, wanted);
    }
  }

  lemma {:induction false} InsertSome(lines: seq<string>, pt: string, wanted: seq<Param>, i: nat)
    requires i < |lines| && IsRtpmap(lines[i], pt)
    ensures HasFmtp(InsertAll(lines, pt, wanted), pt)
  {
    hide IsRtpmap, NewLine, IsFmtp;
    var line, rest := lines[0], InsertAll(lines[1..], pt, wanted);
    if IsRtpmap(line, pt) {
      var added := NewLine(line, pt, wanted);
      NewLineIsFmtp(line, pt, wanted);
      HasFmtpCons(added, rest, pt);
      HasFmtpCons(line, [added] + rest, pt);
      assert [line, added] + rest == [line] + ([added] + rest);
    } else {
      InsertSome(lines[1..], pt, wanted, i - 1);
      HasFmtpCons(line, rest, pt);
    }
  }

  lemma {:induction false} TrimBoth(line: string, more: string)
    requires Trim(line) != "" && more != "" && !IsSpace(more[0])
    ensures Trim(line) <= Trim(line + more)
  {
    hide IsSpace;
    StartBehind(line, more);
    EndBehind(TrimStart(line), more);
  }

  lemma {:induction false} StartBehind(line: string, more: string)
    requires TrimStart(line) != ""
    ensures TrimStart(line + more) == TrimStart(line) + more
  {
    hide IsSpace, TrimStart;
    var t := TrimStart(line);
    var n := |line| - |t|;
    assert line + more == line[..n] + (t + more);
    TrimStartIs(line[..n], t + more);
  }

  lemma {:induction false} EndBehind(front: string, more: string)
    requires more != "" && !IsSpace(more[0])
    ensures TrimEnd(front + more) == front + TrimEnd(more)
  {
    hide IsSpace, TrimEnd;
    var t := TrimEnd(more);
    assert t != "";
    assert front + more == (front + t) + more[|t|..];
    TrimEndIs(front + t, more[|t|..]);
  }

  lemma {:induction false} LowerPrefix(a: string, b: string)
    requires a <= b && StartsWith(Lower(a), "opus/")
    ensures StartsWith(Lower(b), "opus/")
  {
    assert Lower(b)[..5] == Lower(a)[..5];
  }

  /** A mapping stays the same mapping when something that is not whitespace follows it. */
  lemma {:induction false} MappingExtends(line: string, more: string)
    requires OpusMapping(line).Some? && more != "" && !IsSpace(more[0])
    ensures OpusMapping(line + more) == OpusMapping(line)
  {
    hide IsSpace, Lower, Trim;
    var t, u := Trim(line), Trim(line + more);
    TrimBoth(line, more);
    assert u[..9] == t[..9];
    var rest, longer := t[9..], u[9..];
    var i := IndexOf(rest, ' ');
    assert forall k :: 0 <= k < |rest| ==> longer[k] == rest[k];
    IndexOfIs(longer, ' ', i);
    assert rest[i + 1..] <= longer[i + 1..];
    LowerPrefix(rest[i + 1..], longer[i + 1..]);
    assert longer[..i] == rest[..i];
  }

  /** What becomes of an unterminated Opus rtpmap line at the end of an offer. */
  function Glued(line: string, pt: string, wanted: seq<Param>): string {
    line + NewLine(line, pt, wanted)
  }

  lemma {:induction false} GluedIsRtpmap(line: string, pt: string, wanted: seq<Param>)
    requires IsRtpmap(line, pt)
    ensures IsRtpmap(Glued(line, pt, wanted), pt) && !IsFmtp(Glued(line, pt, wanted), pt)
    ensures !IsFmtp(line, pt)
  {
    hide NewLine;
    var prefix := RtpmapPrefix(pt);
    var n := |prefix|;
    var glued := Glued(line, pt, wanted);
    assert prefix[n - 1] == ' ' && prefix[2] == 'r';
    assert line[..n] == TrimEol(line)[..n] == prefix;
    assert glued[..n] == prefix;
    assert glued[n - 1] == ' ' && glued[2] == 'r' && line[2] == 'r';
    assert n <= |TrimEol(glued)|;
    assert TrimEol(glued)[..n] == prefix;
    assert FmtpPrefix(pt)[2] == 'f';
  }

  lemma {:induction false} NewLineStarts(line: string, pt: string, wanted: seq<Param>)
    ensures NewLine(line, pt, wanted) != "" && !IsSpace(NewLine(line, pt, wanted)[0])
  {
    assert FmtpPrefix(pt)[0] == 'a';
    assert NewLine(line, pt, wanted)[0] == FmtpPrefix(pt)[0];
  }

  lemma {:induction false} PayloadTypeSnoc(lines: seq<string>, line: string)
    ensures PayloadType(lines + [line]) == if PayloadType(lines).Some? then PayloadType(lines) else OpusMapping(line)
  {
    hide OpusMapping;
    if |lines| == 0 {
      assert lines + [line] == [line];
    } else {
      PayloadTypeSnoc(lines[1..], line);
      assert (lines + [line])[1..] == lines[1..] + [line];
    }
  }

  /** The lines of the rewritten offer: everything meant, with the last two run together. */
  lemma {:induction false} GluedLines(sdp: string, pt: string, wanted: seq<Param>)
    requires Lacks(wanted, '\n') && PayloadType(Lines(sdp)) == Some(pt)
    requires !HasFmtp(Lines(sdp), pt) && !Insertable(Lines(sdp), pt)
    ensures var lines := Lines(sdp);
            var n := |lines| - 1;
            && n >= 0 && IsRtpmap(lines[n], pt)
            && Lines(Munge(sdp, wanted)) == InsertAll(lines[..n], pt, wanted) + [Glued(lines[n], pt, wanted)]
  {
    hide PayloadType, HasFmtp, Lines, InsertAll, IsRtpmap, Concat, NewLine, RewriteAll;
    var lines := Lines(sdp);
    var n := |lines| - 1;
    LinesAreLines(sdp);
    PayloadTypeIsPlain(lines);
    InsertStep(lines, n, pt, wanted);
    assert lines[..n + 1] == lines;
    ConcatInsert(lines[n], pt, wanted);
    InsertAllTerminated(lines[..n], pt, wanted);
    NewLineIsLine(lines[n], pt, wanted);
    GluedIsLine(lines[n], NewLine(lines[n], pt, wanted));
    var glued := Glued(lines[n], pt, wanted);
    ConcatSnoc(InsertAll(lines[..n], pt, wanted), glued);
    LinesConcat(InsertAll(lines[..n], pt, wanted) + [glued]);
  }

  lemma {:induction false} GluedIsLine(line: string, more: string)
    requires IsLine(line) && !Terminated(line) && IsLine(more)
    ensures IsLine(line + more)
  {
  }

  lemma {:induction false} GluedPayloadType(sdp: string, pt: string, wanted: seq<Param>)
    requires Lacks(wanted, '\n') && PayloadType(Lines(sdp)) == Some(pt)
    requires |Lines(sdp)| > 0
    ensures var lines := Lines(sdp);
            var n := |lines| - 1;
            PayloadType(InsertAll(lines[..n], pt, wanted) + [Glued(lines[n], pt, wanted)]) == Some(pt)
  {
    hide PayloadType, Lines, InsertAll, OpusMapping, NewLine;
    var lines := Lines(sdp);
    var n := |lines| - 1;
    assert lines == lines[..n] + [lines[n]];
    PayloadTypeSnoc(lines[..n], lines[n]);
    InsertKeepsPayloadType(lines[..n], pt, wanted);
    PayloadTypeSnoc(InsertAll(lines[..n], pt, wanted), Glued(lines[n], pt, wanted));
    NewLineStarts(lines[n], pt, wanted);
    if OpusMapping(lines[n]).Some? {
      MappingExtends(lines[n], NewLine(lines[n], pt, wanted));
    }
  }

  lemma {:induction false} HasFmtpSnoc(lines: seq<string>, line: string, pt: string)
    ensures HasFmtp(lines + [line], pt) <==> HasFmtp(lines, pt) || IsFmtp(line, pt)
  {
    RewriteSnoc(lines, line, pt, []);
  }

  /**
   When the last line is an unterminated rtpmap line and there is no fmtp line yet, the rewriting
   is idempotent exactly if an earlier rtpmap line of the payload type got its fmtp line.
   */
  lemma {:induction false} GluingTwice(sdp: string, pt: string, wanted: seq<Param>)
    requires AreWanted(wanted) && |wanted| > 0 && Lacks(wanted, '\n')
    requires PayloadType(Lines(sdp)) == Some(pt) && !HasFmtp(Lines(sdp), pt) && !Insertable(Lines(sdp), pt)
    ensures Munge(Munge(sdp, wanted), wanted) == Munge(sdp, wanted) <==>
            exists i :: 0 <= i < |Lines(sdp)| - 1 && IsRtpmap(Lines(sdp)[i], pt)
  {
    hide PayloadType, HasFmtp, Lines, InsertAll, IsRtpmap, IsFmtp, Concat, NewLine, RewriteAll, AreWanted, Glued;
    var lines := Lines(sdp);
    var n := |lines| - 1;
    GluedLines(sdp, pt, wanted);
    GluedPayloadType(sdp, pt, wanted);
    var glued := Glued(lines[n], pt, wanted);
    GluedIsRtpmap(lines[n], pt, wanted);
    var inserted := InsertAll(lines[..n], pt, wanted);
    HasFmtpSnoc(inserted, glued, pt);
    HasFmtpSnoc(lines[..n], lines[n], pt);
    assert lines == lines[..n] + [lines[n]];
    ConcatLines(Munge(sdp, wanted));
    if i :| 0 <= i < n && IsRtpmap(lines[i], pt) {
      InsertSome(lines[..n], pt, wanted, i);
      InsertedIsRewritten(lines[..n], pt, wanted);
      RewriteSnoc(inserted, glued, pt, wanted);
      RewriteOther(glued, pt, wanted);
    } else {
      InsertNone(lines[..n], pt, wanted);
      GluedAgain(lines[..n], glued, pt, wanted);
    }
  }

  lemma {:induction false} GluedAgain(lines: seq<string>, glued: string, pt: string, wanted: seq<Param>)
    requires IsRtpmap(glued, pt) && forall i :: 0 <= i < |lines| ==> !IsRtpmap(lines[i], pt)
    ensures Concat(InsertAll(lines + [glued], pt, wanted)) != Concat(lines + [glued])
  {
    hide IsRtpmap, Concat, NewLine, InsertAll;
    InsertSnoc(lines, glued, pt, wanted);
    InsertNone(lines, pt, wanted);
    ConcatAppend(lines, Insert(glued, pt, wanted));
    ConcatInsert(glued, pt, wanted);
    ConcatSnoc(lines, glued);
    NewLineStarts(glued, pt, wanted);
    assert |Concat(InsertAll(lines + [glued], pt, wanted))| == |Concat(lines)| + |glued| + |NewLine(glued, pt, wanted)|;
  }

  /** The condition under which rewriting an offer twice is rewriting it once. */
  ghost predicate Idempotent(lines: seq<string>, wanted: seq<Param>)
    requires AreWanted(wanted) && |wanted| > 0
  {
    match PayloadType(lines)
    case None => true
    case Some(pt) =>
      if HasFmtp(lines, pt) then AllSettle(lines, pt, wanted)
      else Insertable(lines, pt) || exists i :: 0 <= i < |lines| - 1 && IsRtpmap(lines[i], pt)
  }

  /**
   For every offer: rewriting twice is rewriting once if and only if every parameter of every
   Opus fmtp line reads back, or, where there is no such line, none has to be added behind an
   unterminated last line unless one is added further up too.
   */
  lemma {:induction false} MungeIsIdempotentExactlyWhen(sdp: string, wanted: seq<Param>)
    requires AreWanted(wanted) && |wanted| > 0 && Lacks(wanted, '\n')
    ensures Munge(Munge(sdp, wanted), wanted) == Munge(sdp, wanted) <==> Idempotent(Lines(sdp), wanted)
  {
    hide IsFmtp, PayloadType, HasFmtp, Lines, Munge, AllSettle, AreWanted, IsRtpmap, ReadsBack;
    var lines := Lines(sdp);
    match PayloadType(lines) {
      case None => MungeIsIdempotent(sdp, wanted);
      case Some(pt) =>
        if HasFmtp(lines, pt) {
          RewritingTwice(sdp, pt, wanted);
        } else if Insertable(lines, pt) {
          NoFmtpReadsBack(lines, pt);
          MungeIsIdempotent(sdp, wanted);
        } else {
          GluingTwice(sdp, pt, wanted);
        }
    }
  }

  lemma {:induction false} LastTerminated(s: string)
    requires Terminated(s)
    ensures |Lines(s)| > 0 && Terminated(Lines(s)[|Lines(s)| - 1])
    decreases |s|
  {
    var i := IndexOf(s, '\n');
    if i + 1 < |s| {
      LastTerminated(s[i + 1..]);
    }
  }

  /**
   The offers the standard describes: every line terminated, every Opus parameter with a key and
   no whitespace beside its equals sign. Rewriting them is idempotent and touches only Opus parameters.
   */
  lemma {:induction false} StandardOffers(sdp: string, stereo: bool, bitrate: nat)
    requires sdp == "" || Terminated(sdp)
    requires PayloadType(Lines(sdp)).Some? ==>
               var pt := PayloadType(Lines(sdp)).value;
               forall i, j :: 0 <= i < |Lines(sdp)| && IsFmtp(Lines(sdp)[i], pt)
                              && 0 <= j < |Parse(Existing(Lines(sdp)[i], pt))| ==>
                                WellFormed(Parse(Existing(Lines(sdp)[i], pt))[j])
    ensures var wanted := Wanted(stereo, bitrate);
            && Munge(Munge(sdp, wanted), wanted) == Munge(sdp, wanted)
            && Lines(Munge(sdp, wanted)) == MungedLines(Lines(sdp), wanted)
  {
    var wanted := Wanted(stereo, bitrate);
    WantedIsProper(stereo, bitrate);
    if sdp != "" {
      LastTerminated(sdp);
    }
    assert Safe(Lines(sdp));
    MungeKeepsLines(sdp, wanted);
    MungeIsIdempotent(sdp, wanted);
  }
}
