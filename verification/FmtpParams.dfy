/** Merging wanted parameters into an fmtp parameter list (relay/src/rtc/handshake.rs, `merge_params`). */
module FmtpParams {
  import opened Basics
  import opened Text

  datatype Param = Param(key: string, value: string)

  // ----- Lists of parameters -----

  /** The value bound to the first occurrence of a key. */
  function Lookup(params: seq<Param>, key: string): Option<string> {
    if |params| == 0 then None
    else if params[0].key == key then Some(params[0].value)
    else Lookup(params[1..], key)
  }

  function Count(params: seq<Param>, key: string): nat {
    if |params| == 0 then 0 else (if params[0].key == key then 1 else 0) + Count(params[1..], key)
  }

  predicate HasKey(params: seq<Param>, key: string) {
    exists i :: 0 <= i < |params| && params[i].key == key
  }

  /** The parameters none of the wanted ones speaks about, in order. */
  function Unrelated(params: seq<Param>, wanted: seq<Param>): seq<Param> {
    if |params| == 0 then []
    else (if HasKey(wanted, params[0].key) then [] else [params[0]]) + Unrelated(params[1..], wanted)
  }

  /** Rebinds the first occurrence of the key, or adds the parameter at the end. */
  function Upsert(params: seq<Param>, p: Param): (r: seq<Param>)
    ensures |params| <= |r| <= |params| + 1
  {
    if |params| == 0 then [p]
    else if params[0].key == p.key then [p] + params[1..]
    else [params[0]] + Upsert(params[1..], p)
  }

  function Merged(params: seq<Param>, wanted: seq<Param>): seq<Param> {
    if |wanted| == 0 then params else Upsert(Merged(params, wanted[..|wanted| - 1]), wanted[|wanted| - 1])
  }

  predicate DistinctKeys(wanted: seq<Param>) {
    forall i, j :: 0 <= i < j < |wanted| ==> wanted[i].key != wanted[j].key
  }

  lemma {:induction false} Cons(p: Param, rest: seq<Param>)
    ensures ([p] + rest)[0] == p && ([p] + rest)[1..] == rest
  {
  }

  lemma {:induction false} UpsertLookup(params: seq<Param>, p: Param, key: string)
    ensures Lookup(Upsert(params, p), key) == if key == p.key then Some(p.value) else Lookup(params, key)
    ensures Count(Upsert(params, p), key) == if key == p.key then Max(1, Count(params, key)) else Count(params, key)
  {
    if |params| == 0 {
      Cons(p, []);
    } else if params[0].key == p.key {
      Cons(p, params[1..]);
    } else {
      UpsertLookup(params[1..], p, key);
      Cons(params[0], Upsert(params[1..], p));
    }
  }

  lemma {:induction false} UpsertKnown(params: seq<Param>, p: Param)
    requires Lookup(params, p.key) == Some(p.value)
    ensures Upsert(params, p) == params
  {
    if params[0].key != p.key {
      UpsertKnown(params[1..], p);
    }
  }

  lemma {:induction false} UpsertUnrelated(params: seq<Param>, p: Param, wanted: seq<Param>)
    requires HasKey(wanted, p.key)
    ensures Unrelated(Upsert(params, p), wanted) == Unrelated(params, wanted)
  {
    if |params| == 0 {
      Cons(p, []);
    } else if params[0].key == p.key {
      Cons(p, params[1..]);
    } else {
      UpsertUnrelated(params[1..], p, wanted);
      Cons(params[0], Upsert(params[1..], p));
    }
  }

  lemma {:induction false} MergedKeeps(params: seq<Param>, wanted: seq<Param>, key: string)
    requires !HasKey(wanted, key)
    ensures Lookup(Merged(params, wanted), key) == Lookup(params, key)
    ensures Count(Merged(params, wanted), key) == Count(params, key)
  {
    if |wanted| > 0 {
      var n := |wanted| - 1;
      assert wanted[n].key != key;
      assert !HasKey(wanted[..n], key);
      MergedKeeps(params, wanted[..n], key);
      UpsertLookup(Merged(params, wanted[..n]), wanted[n], key);
    }
  }

  /** The first occurrence of every wanted key is bound to its wanted value, and no duplicate of it is added. */
  lemma {:induction false} MergedBinds(params: seq<Param>, wanted: seq<Param>, i: nat)
    requires DistinctKeys(wanted) && i < |wanted|
    ensures Lookup(Merged(params, wanted), wanted[i].key) == Some(wanted[i].value)
    ensures Count(Merged(params, wanted), wanted[i].key) == Max(1, Count(params, wanted[i].key))
  {
    var n := |wanted| - 1;
    UpsertLookup(Merged(params, wanted[..n]), wanted[n], wanted[i].key);
    if i < n {
      MergedBinds(params, wanted[..n], i);
    } else {
      MergedKeeps(params, wanted[..n], wanted[n].key);
    }
  }

  lemma {:induction false} MergedUnrelatedTo(params: seq<Param>, some: seq<Param>, wanted: seq<Param>)
    requires forall i :: 0 <= i < |some| ==> HasKey(wanted, some[i].key)
    ensures Unrelated(Merged(params, some), wanted) == Unrelated(params, wanted)
  {
    if |some| > 0 {
      var n := |some| - 1;
      MergedUnrelatedTo(params, some[..n], wanted);
      UpsertUnrelated(Merged(params, some[..n]), some[n], wanted);
    }
  }

  /** Unrelated parameters stay, in order. */
  lemma {:induction false} MergedKeepsUnrelated(params: seq<Param>, wanted: seq<Param>)
    ensures Unrelated(Merged(params, wanted), wanted) == Unrelated(params, wanted)
  {
    MergedUnrelatedTo(params, wanted, wanted);
  }

  lemma {:induction false} MergedKnown(params: seq<Param>, wanted: seq<Param>)
    requires forall i :: 0 <= i < |wanted| ==> Lookup(params, wanted[i].key) == Some(wanted[i].value)
    ensures Merged(params, wanted) == params
  {
    if |wanted| > 0 {
      var n := |wanted| - 1;
      MergedKnown(params, wanted[..n]);
      UpsertKnown(params, wanted[n]);
    }
  }

  /** Merging twice is merging once. */
  lemma {:induction false} MergedTwice(params: seq<Param>, wanted: seq<Param>)
    requires DistinctKeys(wanted)
    ensures Merged(Merged(params, wanted), wanted) == Merged(params, wanted)
  {
    forall i | 0 <= i < |wanted|
      ensures Lookup(Merged(params, wanted), wanted[i].key) == Some(wanted[i].value)
    {
      MergedBinds(params, wanted, i);
    }
    MergedKnown(Merged(params, wanted), wanted);
  }

  // ----- Their text -----

  function ParseItem(item: string): Option<Param> {
    var t := Trim(item);
    if t == "" then None
    else
      var i := IndexOf(t, '=');
      Some(if i == |t| then Param(t, "") else Param(t[..i], t[i + 1..]))
  }

  function ParseAll(items: seq<string>): seq<Param> {
    if |items| == 0 then []
    else (match ParseItem(items[0]) case Some(p) => [p] case None => []) + ParseAll(items[1..])
  }

  function Parse(text: string): seq<Param> {
    ParseAll(Split(text, ';'))
  }

  function PrintItem(p: Param): string {
    if p.value == "" then p.key else p.key + "=" + p.value
  }

  function PrintAll(params: seq<Param>): (items: seq<string>)
    ensures |items| == |params|
    ensures forall i :: 0 <= i < |items| ==> items[i] == PrintItem(params[i])
  {
    if |params| == 0 then [] else [PrintItem(params[0])] + PrintAll(params[1..])
  }

  function Print(params: seq<Param>): string {
    Join(PrintAll(params), ';')
  }

  function Merge(existing: string, wanted: seq<Param>): string {
    Print(Merged(Parse(existing), wanted))
  }

  /** What parsing yields: separators are gone, and a parameter with a value has no whitespace around it. */
  predicate IsItem(p: Param) {
    && Without(p.key, '=') && Without(p.key, ';') && Without(p.value, ';')
    && (p.value != "" ==> Trimmed(p.key + "=" + p.value))
  }

  /** Parameters without a value read back only if their key is not empty and has no whitespace around it. */
  predicate Stable(p: Param) {
    p.value != "" || (p.key != "" && Trimmed(p.key))
  }

  predicate AllItems(params: seq<Param>) {
    forall i :: 0 <= i < |params| ==> IsItem(params[i])
  }

  predicate AllStable(params: seq<Param>) {
    forall i :: 0 <= i < |params| ==> Stable(params[i])
  }

  /** A parameter worth wanting: a proper key and value. */
  predicate IsWanted(p: Param) {
    IsItem(p) && p.key != "" && p.value != "" && Trimmed(p.key) && Trimmed(p.value)
  }

  predicate AreWanted(wanted: seq<Param>) {
    DistinctKeys(wanted) && forall i :: 0 <= i < |wanted| ==> IsWanted(wanted[i])
  }

  lemma {:induction false} ParsedItem(item: string)
    requires Without(item, ';')
    ensures ParseItem(item).Some? ==> IsItem(ParseItem(item).value)
  {
    hide Trim, Trimmed;
    var t := Trim(item);
    TrimWithout(item, ';');
    var i := IndexOf(t, '=');
    if i < |t| {
      assert t[..i] + "=" + t[i + 1..] == t;
    }
  }

  lemma {:induction false} ParsedItems(items: seq<string>)
    requires forall i :: 0 <= i < |items| ==> Without(items[i], ';')
    ensures AllItems(ParseAll(items))
  {
    hide ParseItem, IsItem;
    if |items| > 0 {
      ParsedItem(items[0]);
      ParsedItems(items[1..]);
    }
  }

  /** A stable parameter reads back; an unstable one prints as something no parameter prints as after reading. */
  lemma {:induction false} ItemReadsBack(p: Param)
    requires IsItem(p)
    ensures Stable(p) <==> PrintItem(p) != "" && Trimmed(PrintItem(p))
    ensures Stable(p) ==> ParseItem(PrintItem(p)) == Some(p)
    ensures Without(PrintItem(p), ';')
  {
    var t := PrintItem(p);
    if p.value == "" {
      IndexOfIs(t, '=', |t|);
    } else {
      IndexOfIs(t, '=', |p.key|);
      assert t[..|p.key|] == p.key && t[|p.key| + 1..] == p.value;
    }
  }

  lemma {:induction false} AllReadBack(params: seq<Param>)
    requires AllItems(params) && AllStable(params)
    ensures ParseAll(PrintAll(params)) == params
  {
    hide ParseItem, PrintItem;
    if |params| > 0 {
      ItemReadsBack(params[0]);
      AllReadBack(params[1..]);
    }
  }

  /** Printing then parsing gives the same parameters back. */
  lemma {:induction false} ParsePrint(params: seq<Param>)
    requires AllItems(params) && AllStable(params) && |params| > 0
    ensures Parse(Print(params)) == params
  {
    forall i | 0 <= i < |params|
      ensures Without(PrintAll(params)[i], ';')
    {
      ItemReadsBack(params[i]);
    }
    SplitJoin(PrintAll(params), ';');
    AllReadBack(params);
  }

  lemma {:induction false} UpsertItems(params: seq<Param>, p: Param)
    requires AllItems(params) && IsWanted(p)
    ensures AllItems(Upsert(params, p))
    ensures AllStable(Upsert(params, p)) <==> AllStable(params)
  {
    if |params| > 0 {
      var rest := Upsert(params[1..], p);
      UpsertItems(params[1..], p);
      assert AllStable(params) <==> Stable(params[0]) && AllStable(params[1..]);
      if params[0].key == p.key {
        assert AllStable([p] + params[1..]) <==> Stable(p) && AllStable(params[1..]) by {
          Cons(p, params[1..]);
          StableCons(p, params[1..]);
        }
      } else {
        StableCons(params[0], rest);
      }
    }
  }

  lemma {:induction false} StableCons(p: Param, rest: seq<Param>)
    ensures AllStable([p] + rest) <==> Stable(p) && AllStable(rest)
  {
    if AllStable([p] + rest) {
      assert ([p] + rest)[0] == p;
      assert forall i :: 0 <= i < |rest| ==> rest[i] == ([p] + rest)[i + 1];
    }
  }

  lemma {:induction false} MergedItems(params: seq<Param>, wanted: seq<Param>)
    requires AllItems(params) && AreWanted(wanted)
    ensures AllItems(Merged(params, wanted))
    ensures AllStable(Merged(params, wanted)) <==> AllStable(params)
    ensures |wanted| > 0 ==> |Merged(params, wanted)| > 0
  {
    if |wanted| > 0 {
      var n := |wanted| - 1;
      MergedItems(params, wanted[..n]);
      UpsertItems(Merged(params, wanted[..n]), wanted[n]);
      assert |Upsert(Merged(params, wanted[..n]), wanted[n])| > 0;
    }
  }

  /** The merged text means the merged parameters. */
  lemma {:induction false} MergeReadsBack(existing: string, wanted: seq<Param>)
    requires AreWanted(wanted) && |wanted| > 0 && AllStable(Parse(existing))
    ensures Parse(Merge(existing, wanted)) == Merged(Parse(existing), wanted)
  {
    ParsedItems(Split(existing, ';'));
    MergedItems(Parse(existing), wanted);
    ParsePrint(Merged(Parse(existing), wanted));
  }

  lemma {:induction false} ReadAgain(p: Param)
    requires IsItem(p)
    ensures ParseItem(PrintItem(p)).Some? ==> Stable(ParseItem(PrintItem(p)).value)
  {
    hide Trim, IsSpace;
    if Stable(p) {
      ItemReadsBack(p);
    } else {
      var t := Trim(p.key);
      TrimWithout(p.key, '=');
      IndexOfIs(t, '=', |t|);
    }
  }

  lemma {:induction false} AllReadAgain(params: seq<Param>)
    requires AllItems(params)
    ensures AllStable(ParseAll(PrintAll(params)))
  {
    hide ParseItem, PrintItem, Stable;
    if |params| > 0 {
      var item, rest := PrintItem(params[0]), PrintAll(params[1..]);
      ReadAgain(params[0]);
      AllReadAgain(params[1..]);
      assert PrintAll(params) == [item] + rest && ([item] + rest)[1..] == rest;
      match ParseItem(item) {
        case Some(p) => StableCons(p, ParseAll(rest));
        case None => assert [] + ParseAll(rest) == ParseAll(rest);
      }
    }
  }

  lemma {:induction false} PrintedSplit(params: seq<Param>)
    requires AllItems(params) && |params| > 0
    ensures Split(Print(params), ';') == PrintAll(params)
  {
    forall i | 0 <= i < |params|
      ensures Without(PrintAll(params)[i], ';')
    {
      ItemReadsBack(params[i]);
    }
    SplitJoin(PrintAll(params), ';');
  }

  /** Texts that print alike are alike in stability. */
  lemma {:induction false} SamePrintSameStability(a: seq<Param>, b: seq<Param>)
    requires AllItems(a) && AllItems(b) && PrintAll(a) == PrintAll(b)
    ensures AllStable(a) <==> AllStable(b)
  {
    forall i | 0 <= i < |a|
      ensures Stable(a[i]) <==> Stable(b[i])
    {
      assert PrintAll(a)[i] == PrintAll(b)[i];
      ItemReadsBack(a[i]);
      ItemReadsBack(b[i]);
    }
  }

  /**
   Merging into a text is idempotent if and only if every parameter without a value has a
   key that is not empty and has no whitespace around it.
   */
  lemma {:induction false} MergeTwice(existing: string, wanted: seq<Param>)
    requires AreWanted(wanted) && |wanted| > 0
    ensures Merge(Merge(existing, wanted), wanted) == Merge(existing, wanted) <==> AllStable(Parse(existing))
  {
    hide ParseAll, Split, Print, Merged;
    var params := Parse(existing);
    ParsedItems(Split(existing, ';'));
    MergedItems(params, wanted);
    var once := Merged(params, wanted);
    var again := Merged(Parse(Print(once)), wanted);
    if AllStable(params) {
      ParsePrint(once);
      MergedTwice(params, wanted);
    } else {
      PrintedSplit(once);
      AllReadAgain(once);
      ParsedItems(Split(Print(once), ';'));
      MergedItems(Parse(Print(once)), wanted);
      PrintedSplit(again);
      if Print(again) == Print(once) {
        SamePrintSameStability(again, once);
      }
    }
  }

  /** The well-formed parameters of the standard: a key, and no whitespace beside the equals sign. */
  predicate WellFormed(p: Param) {
    p.key != "" && Trimmed(p.key) && Trimmed(p.value)
  }

  lemma {:induction false} UpsertAt(params: seq<Param>, p: Param, j: nat)
    requires j <= |params| && (forall k :: 0 <= k < j ==> params[k].key != p.key)
    requires j < |params| ==> params[j].key == p.key
    ensures Upsert(params, p) == if j < |params| then params[j := p] else params + [p]
  {
    if j > 0 {
      UpsertAt(params[1..], p, j - 1);
    }
  }

  method MergeParams(existing: string, wanted: seq<Param>) returns (text: string)
    ensures text == Merge(existing, wanted)
  {
    hide Parse, Print;
    var params := Parse(existing);
    for i := 0 to |wanted|
      invariant params == Merged(Parse(existing), wanted[..i])
    {
      var j := 0;
      while j < |params| && params[j].key != wanted[i].key
        invariant j <= |params|
        invariant forall k :: 0 <= k < j ==> params[k].key != wanted[i].key
      {
        j := j + 1;
      }
      UpsertAt(params, wanted[i], j);
      assert wanted[..i + 1][..i] == wanted[..i];
      if j < |params| {
        params := params[j := params[j].(value := wanted[i].value)];
      } else {
        params := params + [wanted[i]];
      }
    }
    assert wanted[..|wanted|] == wanted;
    text := Print(params);
  }

  // ----- Characters that stay out -----

  predicate Lacks(params: seq<Param>, d: char) {
    forall i :: 0 <= i < |params| ==> Without(params[i].key, d) && Without(params[i].value, d)
  }

  lemma {:induction false} ParsedLacks(items: seq<string>, d: char)
    requires forall i :: 0 <= i < |items| ==> Without(items[i], d)
    ensures Lacks(ParseAll(items), d)
  {
    hide ParseItem;
    if |items| > 0 {
      ParsedItemLacks(items[0], d);
      ParsedLacks(items[1..], d);
    }
  }

  lemma {:induction false} ParsedItemLacks(item: string, d: char)
    requires Without(item, d)
    ensures ParseItem(item).Some? ==> Without(ParseItem(item).value.key, d) && Without(ParseItem(item).value.value, d)
  {
    hide Trim;
    TrimWithout(item, d);
  }

  lemma {:induction false} MergedLacks(params: seq<Param>, wanted: seq<Param>, d: char)
    requires Lacks(params, d) && Lacks(wanted, d)
    ensures Lacks(Merged(params, wanted), d)
  {
    if |wanted| > 0 {
      var n := |wanted| - 1;
      MergedLacks(params, wanted[..n], d);
      UpsertLacks(Merged(params, wanted[..n]), wanted[n], d);
    }
  }

  lemma {:induction false} UpsertLacks(params: seq<Param>, p: Param, d: char)
    requires Lacks(params, d) && Without(p.key, d) && Without(p.value, d)
    ensures Lacks(Upsert(params, p), d)
  {
    if |params| > 0 {
      UpsertLacks(params[1..], p, d);
    }
  }

  lemma {:induction false} PrintLacks(params: seq<Param>, d: char)
    requires Lacks(params, d) && d != ';' && d != '='
    ensures Without(Print(params), d)
  {
    JoinWithout(PrintAll(params), ';', d);
  }

  lemma {:induction false} MergeLacks(existing: string, wanted: seq<Param>, d: char)
    requires Without(existing, d) && Lacks(wanted, d) && d != ';' && d != '='
    ensures Without(Merge(existing, wanted), d)
  {
    SplitWithout(existing, ';', d);
    ParsedLacks(Split(existing, ';'), d);
    MergedLacks(Parse(existing), wanted, d);
    PrintLacks(Merged(Parse(existing), wanted), d);
  }

  /** The merged text ends in something other than whitespace. */
  lemma {:induction false} PrintEnds(params: seq<Param>)
    requires AllItems(params) && AllStable(params) && |params| > 0
    ensures Print(params) != "" && !IsSpace(Print(params)[|Print(params)| - 1])
  {
    ItemReadsBack(params[0]);
    if |params| > 1 {
      PrintEnds(params[1..]);
      assert PrintAll(params)[1..] == PrintAll(params[1..]);
    }
  }

  lemma {:induction false} MergeEnds(existing: string, wanted: seq<Param>)
    requires AreWanted(wanted) && |wanted| > 0 && AllStable(Parse(existing))
    ensures Merge(existing, wanted) != "" && !IsSpace(Merge(existing, wanted)[|Merge(existing, wanted)| - 1])
  {
    ParsedItems(Split(existing, ';'));
    MergedItems(Parse(existing), wanted);
    PrintEnds(Merged(Parse(existing), wanted));
  }

  /** The wanted parameters on their own need no merging. */
  lemma {:induction false} WantedIsMerged(wanted: seq<Param>)
    requires AreWanted(wanted) && |wanted| > 0
    ensures AllStable(Parse(Print(wanted))) && Merge(Print(wanted), wanted) == Print(wanted)
    ensures Parse(Print(wanted)) == wanted
  {
    ParsePrint(wanted);
    forall i | 0 <= i < |wanted|
      ensures Lookup(wanted, wanted[i].key) == Some(wanted[i].value)
    {
      LookupDistinct(wanted, i);
    }
    MergedKnown(wanted, wanted);
  }

  lemma {:induction false} LookupDistinct(wanted: seq<Param>, i: nat)
    requires DistinctKeys(wanted) && i < |wanted|
    ensures Lookup(wanted, wanted[i].key) == Some(wanted[i].value)
  {
    if i > 0 {
      assert wanted[0].key != wanted[i].key;
      LookupDistinct(wanted[1..], i - 1);
    }
  }

  // ----- Parameters that end in a stray terminator -----

  /** The parameters once a terminator behind the last one has been taken for the end of the line. */
  function LastTrimmed(params: seq<Param>): (trimmed: seq<Param>)
    requires |params| > 0
    ensures |trimmed| == |params|
  {
    var n := |params| - 1;
    params[n := if params[n].value == "" then params[n].(key := TrimEol(params[n].key)) else params[n]]
  }

  lemma {:induction false} JoinTrimmed(items: seq<string>)
    requires |items| > 0
    ensures TrimEol(Join(items, ';')) == Join(items[|items| - 1 := TrimEol(items[|items| - 1])], ';')
  {
    var trimmed := items[|items| - 1 := TrimEol(items[|items| - 1])];
    if |items| > 1 {
      JoinTrimmed(items[1..]);
      assert trimmed[1..] == items[1..][|items| - 2 := TrimEol(items[|items| - 1])];
      TrimEolBehind(items[0] + ";", Join(items[1..], ';'));
    }
  }

  lemma {:induction false} LastItemTrimmed(p: Param)
    requires IsItem(p)
    ensures TrimEol(PrintItem(p)) == PrintItem(if p.value == "" then p.(key := TrimEol(p.key)) else p)
    ensures IsItem(if p.value == "" then p.(key := TrimEol(p.key)) else p)
  {
    if p.value != "" {
      TrimEolIs(PrintItem(p), "");
      assert PrintItem(p) + "" == PrintItem(p);
    }
  }

  lemma {:induction false} TrimmedPrint(params: seq<Param>)
    requires AllItems(params) && |params| > 0
    ensures AllItems(LastTrimmed(params))
    ensures TrimEol(Print(params)) == Print(LastTrimmed(params))
  {
    hide IsItem, PrintItem;
    var n := |params| - 1;
    LastItemTrimmed(params[n]);
    JoinTrimmed(PrintAll(params));
    assert PrintAll(LastTrimmed(params)) == PrintAll(params)[n := TrimEol(PrintAll(params)[n])];
  }

  lemma {:induction false} LookupLastTrimmed(params: seq<Param>, key: string, value: string)
    requires |params| > 0 && value != "" && Lookup(params, key) == Some(value)
    ensures Lookup(LastTrimmed(params), key) == Some(value)
  {
    if |params| > 1 && params[0].key != key {
      LookupLastTrimmed(params[1..], key, value);
      assert LastTrimmed(params)[1..] == LastTrimmed(params[1..]);
    }
  }

  lemma {:induction false} SettledIsMerged(params: seq<Param>, wanted: seq<Param>)
    requires AreWanted(wanted) && |wanted| > 0 && AllItems(params)
    ensures |Merged(params, wanted)| > 0
    ensures Merged(LastTrimmed(Merged(params, wanted)), wanted) == LastTrimmed(Merged(params, wanted))
  {
    hide IsItem, LastTrimmed, Merged;
    MergedItems(params, wanted);
    forall i | 0 <= i < |wanted|
      ensures Lookup(LastTrimmed(Merged(params, wanted)), wanted[i].key) == Some(wanted[i].value)
    {
      MergedBinds(params, wanted, i);
      LookupLastTrimmed(Merged(params, wanted), wanted[i].key, wanted[i].value);
    }
    MergedKnown(LastTrimmed(Merged(params, wanted)), wanted);
  }

  /**
   The merged text without a terminator at its end is a fixed point of merging if and only if
   every parameter reads back once that terminator is gone.
   */
  lemma {:induction false} TrimmedMergeSettles(existing: string, wanted: seq<Param>)
    requires AreWanted(wanted) && |wanted| > 0
    ensures |Merged(Parse(existing), wanted)| > 0
    ensures var text := TrimEol(Merge(existing, wanted));
            Merge(text, wanted) == text <==> AllStable(LastTrimmed(Merged(Parse(existing), wanted)))
  {
    hide ParseAll, Split, Print, Merged, LastTrimmed, TrimEol;
    var params := Parse(existing);
    ParsedItems(Split(existing, ';'));
    MergedItems(params, wanted);
    SettledIsMerged(params, wanted);
    var settled := LastTrimmed(Merged(params, wanted));
    TrimmedPrint(Merged(params, wanted));
    if AllStable(settled) {
      ParsePrint(settled);
    } else {
      var again := Merged(Parse(Print(settled)), wanted);
      PrintedSplit(settled);
      AllReadAgain(settled);
      ParsedItems(Split(Print(settled), ';'));
      MergedItems(Parse(Print(settled)), wanted);
      PrintedSplit(again);
      if Print(again) == Print(settled) {
        SamePrintSameStability(again, settled);
      }
    }
  }
}
