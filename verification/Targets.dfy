/** The list of (tenant, knowledge base) targets a configuration value names, and its printed form. */
module Targets {
  import opened Wrappers
  import opened Text
  import opened Splitting

  datatype Target = Target(tenantID: string, kbID: string)

  datatype ParseError = NotTwoPieces(entry: string) | MissingName(entry: string)

  function Key(t: Target): string { t.tenantID + "\0" + t.kbID }

  function Entry(t: Target): string { t.tenantID + ":" + t.kbID }

  // ---------- what the parser computes ----------

  /** One comma-separated part. */
  function ParseEntry(part: string): Result<Target, ParseError> {
    var entry := TrimSpace(part);
    var pieces := Split(entry, ':');
    if |pieces| != 2 then Err(NotTwoPieces(entry))
    else
      var t := Target(TrimSpace(pieces[0]), TrimSpace(pieces[1]));
      if t.tenantID == "" || t.kbID == "" then Err(MissingName(entry)) else Ok(t)
  }

  /** All parts in order, or the first error. */
  function ParseEntries(parts: seq<string>): Result<seq<Target>, ParseError> {
    if parts == [] then Ok([])
    else
      match ParseEntries(parts[..|parts| - 1])
      case Err(e) => Err(e)
      case Ok(before) =>
        match ParseEntry(parts[|parts| - 1])
        case Err(e) => Err(e)
        case Ok(t) => Ok(before + [t])
  }

  function Keys(ts: seq<Target>): set<string> { set i | 0 <= i < |ts| :: Key(ts[i]) }

  lemma KeysAppend(ts: seq<Target>, t: Target)
    ensures Keys(ts + [t]) == Keys(ts) + {Key(t)}
  {
    var more := ts + [t];
    forall k | k in Keys(ts) + {Key(t)} ensures k in Keys(more) {
      if k == Key(t) {
        assert more[|ts|] == t;
      } else {
        var i :| 0 <= i < |ts| && Key(ts[i]) == k;
        assert more[i] == ts[i];
      }
    }
  }

  /** Keeps the first target of every key. */
  function FirstOfKeys(ts: seq<Target>): seq<Target> {
    if ts == [] then []
    else
      var before, last := ts[..|ts| - 1], ts[|ts| - 1];
      FirstOfKeys(before) + if Key(last) in Keys(before) then [] else [last]
  }

  function Parsed(raw: string): Result<seq<Target>, ParseError> {
    var trimmed := TrimSpace(raw);
    if trimmed == "" then Ok([])
    else
      match ParseEntries(Split(trimmed, ','))
      case Err(e) => Err(e)
      case Ok(ts) => Ok(FirstOfKeys(ts))
  }

  // ---------- what the printer computes ----------

  function Entries(ts: seq<Target>): seq<string> {
    if ts == [] then []
    else
      var last := ts[|ts| - 1];
      Entries(ts[..|ts| - 1]) + if last.tenantID == "" && last.kbID == "" then [] else [Entry(last)]
  }

  function Printed(ts: seq<Target>): string { Join(Entries(ts), ',') }

  // ---------- the list without repeats ----------

  /** Keeps the first of equal targets. */
  function WithoutRepeats(ts: seq<Target>): seq<Target> {
    if ts == [] then []
    else
      var before, last := ts[..|ts| - 1], ts[|ts| - 1];
      WithoutRepeats(before) + if last in before then [] else [last]
  }

  lemma {:induction false} WithoutRepeatsIsTheSameSet(ts: seq<Target>)
    ensures forall t :: t in WithoutRepeats(ts) <==> t in ts
    ensures forall i, j | 0 <= i < j < |WithoutRepeats(ts)| :: WithoutRepeats(ts)[i] != WithoutRepeats(ts)[j]
  {
    if ts != [] {
      var before, last := ts[..|ts| - 1], ts[|ts| - 1];
      WithoutRepeatsIsTheSameSet(before);
      assert ts == before + [last];
    }
  }

  lemma {:induction false} NothingToRemove(ts: seq<Target>)
    requires forall i, j | 0 <= i < j < |ts| :: ts[i] != ts[j]
    ensures WithoutRepeats(ts) == ts
  {
    if ts != [] {
      NothingToRemove(ts[..|ts| - 1]);
    }
  }

  // ---------- keys ----------

  /** No two different targets of the list share a key. */
  predicate KeysTellApart(ts: seq<Target>) {
    forall i, j | 0 <= i < |ts| && 0 <= j < |ts| :: Key(ts[i]) == Key(ts[j]) ==> ts[i] == ts[j]
  }

  lemma KeyDeterminesTarget(a: Target, b: Target)
    requires '\0' !in a.tenantID && '\0' !in b.tenantID && Key(a) == Key(b)
    ensures a == b
  {
    SplitFirst(a.tenantID, '\0', a.kbID);
    SplitFirst(b.tenantID, '\0', b.kbID);
    assert Split(Key(a), '\0')[0] == a.tenantID && Split(Key(b), '\0')[0] == b.tenantID;
    assert Key(a)[|a.tenantID| + 1..] == a.kbID && Key(b)[|b.tenantID| + 1..] == b.kbID;
  }

  lemma NulFreeKeysTellApart(ts: seq<Target>)
    requires forall i | 0 <= i < |ts| :: '\0' !in ts[i].tenantID
    ensures KeysTellApart(ts)
  {
    forall i, j | 0 <= i < |ts| && 0 <= j < |ts| && Key(ts[i]) == Key(ts[j]) ensures ts[i] == ts[j] {
      KeyDeterminesTarget(ts[i], ts[j]);
    }
  }

  lemma TellApartPrefix(before: seq<Target>, last: Target)
    ensures KeysTellApart(before + [last]) <==> KeysTellApart(before) && (Key(last) in Keys(before) ==> last in before)
  {
    hide Key;
    var ts := before + [last];
    if KeysTellApart(ts) {
      forall i | 0 <= i < |before| && Key(before[i]) == Key(last) ensures last in before {
        assert ts[i] == before[i] && ts[|before|] == last;
      }
      forall i, j | 0 <= i < |before| && 0 <= j < |before| && Key(before[i]) == Key(before[j]) ensures before[i] == before[j] {
        assert ts[i] == before[i] && ts[j] == before[j];
      }
    }
  }

  /** Removing by key is removing repeats exactly when keys tell the targets apart. */
  lemma {:induction false} FirstOfKeysExactlyWhen(ts: seq<Target>)
    ensures FirstOfKeys(ts) == WithoutRepeats(ts) <==> KeysTellApart(ts)
    ensures |FirstOfKeys(ts)| <= |WithoutRepeats(ts)|
  {
    if ts != [] {
      hide Key, KeysTellApart;
      var before, last := ts[..|ts| - 1], ts[|ts| - 1];
      FirstOfKeysExactlyWhen(before);
      assert ts == before + [last];
      TellApartPrefix(before, last);
      var kept, unrepeated := FirstOfKeys(before), WithoutRepeats(before);
      if last in before {
        assert FirstOfKeys(ts) == kept && WithoutRepeats(ts) == unrepeated;
      } else if Key(last) in Keys(before) {
        assert |FirstOfKeys(ts)| < |WithoutRepeats(ts)|;
      } else {
        assert (kept + [last])[..|kept|] == kept && (unrepeated + [last])[..|unrepeated|] == unrepeated;
      }
    }
  }

  // ---------- printable targets ----------

  predicate Printable(t: Target) {
    && t.tenantID != "" && Trimmed(t.tenantID, IsSpace) && ',' !in t.tenantID && ':' !in t.tenantID
    && t.kbID != "" && Trimmed(t.kbID, IsSpace) && ',' !in t.kbID && ':' !in t.kbID
  }

  predicate AllPrintable(ts: seq<Target>) { forall i | 0 <= i < |ts| :: Printable(ts[i]) }

  lemma EntryReadsBack(t: Target)
    requires Printable(t)
    ensures ParseEntry(Entry(t)) == Ok(t) && Clean(Entry(t))
  {
    var e := Entry(t);
    assert e[0] == t.tenantID[0] && e[|e| - 1] == t.kbID[|t.kbID| - 1];
    TrimNothing(e, IsSpace);
    TrimNothing(t.tenantID, IsSpace);
    TrimNothing(t.kbID, IsSpace);
    assert Join([t.tenantID, t.kbID], ':') == e;
    SplitJoin([t.tenantID, t.kbID], ':');
  }

  /** A comma-free entry that needs no trimming. */
  predicate Clean(entry: string) { ',' !in entry && Trimmed(entry, IsSpace) && entry != "" }

  predicate AllClean(parts: seq<string>) { forall i | 0 <= i < |parts| :: Clean(parts[i]) }

  lemma ParseOneMore(parts: seq<string>, part: string)
    requires ParseEntries(parts).Ok? && ParseEntry(part).Ok?
    ensures ParseEntries(parts + [part]) == Ok(ParseEntries(parts).value + [ParseEntry(part).value])
  {
    hide ParseEntry;
    assert (parts + [part])[..|parts|] == parts;
  }

  lemma EntriesAppend(before: seq<Target>, last: Target)
    requires Printable(last)
    ensures Entries(before + [last]) == Entries(before) + [Entry(last)]
  {
    hide Entry;
    assert (before + [last])[..|before|] == before;
  }

  /** The printed entries of printable targets read back one by one. */
  lemma {:induction false} EntriesReadBack(ts: seq<Target>)
    requires AllPrintable(ts)
    ensures |Entries(ts)| == |ts| && ParseEntries(Entries(ts)) == Ok(ts) && AllClean(Entries(ts))
  {
    if ts != [] {
      hide ParseEntry, Entry, Entries, ParseEntries, Clean, Printable;
      var before, last := ts[..|ts| - 1], ts[|ts| - 1];
      assert ts == before + [last] && Printable(last);
      EntriesReadBack(before);
      EntryReadsBack(last);
      EntriesAppend(before, last);
      ParseOneMore(Entries(before), Entry(last));
    }
  }

  lemma {:induction false} JoinIsTrimmed(parts: seq<string>)
    requires parts != [] && AllClean(parts)
    ensures Join(parts, ',') != "" && Trimmed(Join(parts, ','), IsSpace)
  {
    if |parts| > 1 {
      JoinIsTrimmed(parts[1..]);
      var rest := Join(parts[1..], ',');
      var s := parts[0] + [','] + rest;
      assert s[0] == parts[0][0] && s[|s| - 1] == rest[|rest| - 1];
    }
  }

  lemma PrintedReadsBack(ts: seq<Target>)
    requires AllPrintable(ts)
    ensures Parsed(Printed(ts)) == Ok(FirstOfKeys(ts))
  {
    hide ParseEntries;
    EntriesReadBack(ts);
    if ts != [] {
      JoinIsTrimmed(Entries(ts));
      TrimNothing(Printed(ts), IsSpace);
      SplitJoin(Entries(ts), ',');
    }
  }

  // ---------- which texts parse ----------

  /** The trimmed part has exactly one colon, between `a` and `b`. */
  ghost predicate Pair(part: string, a: string, b: string) {
    TrimSpace(part) == a + ":" + b && ':' !in a && ':' !in b
  }

  ghost predicate NamesTarget(part: string) {
    exists a, b :: Pair(part, a, b) && TrimSpace(a) != "" && TrimSpace(b) != ""
  }

  /** A part with one colon names the target on its two sides, unless one side is blank. */
  lemma PairAnswer(part: string, a: string, b: string)
    requires Pair(part, a, b)
    ensures ParseEntry(part) ==
            if TrimSpace(a) == "" || TrimSpace(b) == "" then Err(MissingName(TrimSpace(part)))
            else Ok(Target(TrimSpace(a), TrimSpace(b)))
  {
    hide TrimSpace, Split;
    assert Join([a, b], ':') == a + ":" + b;
    SplitJoin([a, b], ':');
  }

  /** Any other part is refused for its shape. */
  lemma MalformedAnswer(part: string)
    requires forall a, b :: !Pair(part, a, b)
    ensures ParseEntry(part) == Err(NotTwoPieces(TrimSpace(part)))
  {
    if |Split(TrimSpace(part), ':')| == 2 {
      var _, _ := TwoPieces(part);
    }
  }

  lemma TwoPieces(part: string) returns (a: string, b: string)
    requires |Split(TrimSpace(part), ':')| == 2
    ensures Pair(part, a, b)
  {
    hide TrimSpace, Split;
    var pieces := Split(TrimSpace(part), ':');
    a, b := pieces[0], pieces[1];
    JoinSplit(TrimSpace(part), ':');
    PiecesOf(TrimSpace(part), ':');
    assert a in pieces && b in pieces;
    assert pieces == [a, b] && Join([a, b], ':') == a + ":" + b;
  }

  lemma EntryParsesExactlyWhen(part: string)
    ensures ParseEntry(part).Ok? <==> NamesTarget(part)
  {
    hide ParseEntry, Pair, TrimSpace;
    if a, b :| Pair(part, a, b) {
      forall c, d | Pair(part, c, d) && TrimSpace(c) != "" && TrimSpace(d) != "" ensures ParseEntry(part).Ok? {
        PairAnswer(part, c, d);
      }
      PairAnswer(part, a, b);
    } else {
      MalformedAnswer(part);
    }
  }

  /** A text parses if and only if it is blank or each of its comma-separated parts names a target; otherwise the first
      part that does not decides the error. */
  lemma ParsesExactlyWhen(raw: string)
    ensures var parts := Split(TrimSpace(raw), ',');
            && (Parsed(raw).Ok? <==> TrimSpace(raw) == "" || forall i | 0 <= i < |parts| :: NamesTarget(parts[i]))
            && (TrimSpace(raw) == "" ==> Parsed(raw) == Ok([]))
            && (Parsed(raw).Err? ==> exists i | 0 <= i < |parts| :: FirstBad(parts, i, Parsed(raw).error))
  {
    hide ParseEntry, NamesTarget, Split, TrimSpace, ParseEntries, FirstBad;
    var parts := Split(TrimSpace(raw), ',');
    EntriesParseExactlyWhen(parts);
    if ParseEntries(parts).Err? {
      var i := FindBad(parts);
    }
  }

  /** The part at `i` gives the error and every part before it names a target. */
  ghost predicate FirstBad(parts: seq<string>, i: nat, e: ParseError)
    requires i < |parts|
  {
    ParseEntry(parts[i]) == Err(e) && forall j | 0 <= j < i :: NamesTarget(parts[j])
  }

  lemma {:induction false} EntriesParseExactlyWhen(parts: seq<string>)
    ensures ParseEntries(parts).Ok? <==> forall i | 0 <= i < |parts| :: NamesTarget(parts[i])
  {
    hide ParseEntry, NamesTarget;
    if parts != [] {
      var front, last := parts[..|parts| - 1], parts[|parts| - 1];
      EntriesParseExactlyWhen(front);
      EntryParsesExactlyWhen(last);
      assert parts == front + [last];
      if forall i | 0 <= i < |parts| :: NamesTarget(parts[i]) {
        forall i | 0 <= i < |front| ensures NamesTarget(front[i]) { assert front[i] == parts[i]; }
      }
    }
  }

  lemma {:induction false} FindBad(parts: seq<string>) returns (i: nat)
    requires ParseEntries(parts).Err?
    ensures i < |parts| && FirstBad(parts, i, ParseEntries(parts).error)
  {
    hide ParseEntry, NamesTarget;
    var front := parts[..|parts| - 1];
    if ParseEntries(front).Err? {
      i := FindBad(front);
      assert parts[i] == front[i] && forall j | 0 <= j < i :: parts[j] == front[j];
    } else {
      i := |front|;
      EntriesParseExactlyWhen(front);
      assert forall j | 0 <= j < i :: parts[j] == front[j];
    }
  }

  /** Printing skips nothing but targets that are empty on both sides. */
  lemma {:induction false} PrintingSkipsEmpty(ts: seq<Target>, e: string)
    ensures e in Entries(ts) <==> exists i | 0 <= i < |ts| :: ts[i] != Target("", "") && e == ts[i].tenantID + ":" + ts[i].kbID
  {
    if ts != [] {
      var front, last := ts[..|ts| - 1], ts[|ts| - 1];
      PrintingSkipsEmpty(front, e);
      assert ts == front + [last];
      if i :| 0 <= i < |front| && front[i] != Target("", "") && e == front[i].tenantID + ":" + front[i].kbID {
        assert ts[i] == front[i];
      }
    }
  }

  // ---------- parsed targets ----------

  lemma TrimKeeps(s: string, c: char)
    requires c !in s
    ensures c !in TrimSpace(s)
  {
    var i := TrimLeftSplit(s, IsSpace);
    var j := TrimRightSplit(TrimLeft(s, IsSpace), IsSpace);
  }

  lemma ParsedEntryIsPrintable(part: string)
    requires ',' !in part && ParseEntry(part).Ok?
    ensures Printable(ParseEntry(part).value)
  {
    var entry := TrimSpace(part);
    var pieces := Split(entry, ':');
    TrimKeeps(part, ',');
    PiecesOf(entry, ':');
    forall i | 0 <= i < 2 ensures ',' !in TrimSpace(pieces[i]) && ':' !in TrimSpace(pieces[i]) && Trimmed(TrimSpace(pieces[i]), IsSpace) {
      assert pieces[i] in pieces;
      TrimKeeps(pieces[i], ',');
      TrimKeeps(pieces[i], ':');
      TrimmedAfter(pieces[i], IsSpace);
    }
  }

  lemma {:induction false} ParsedEntriesArePrintable(parts: seq<string>)
    requires (forall i | 0 <= i < |parts| :: ',' !in parts[i]) && ParseEntries(parts).Ok?
    ensures AllPrintable(ParseEntries(parts).value)
  {
    hide ParseEntry, Printable;
    if parts != [] {
      ParsedEntriesArePrintable(parts[..|parts| - 1]);
      ParsedEntryIsPrintable(parts[|parts| - 1]);
    }
  }

  predicate DistinctKeys(ts: seq<Target>) { forall i, j | 0 <= i < j < |ts| :: Key(ts[i]) != Key(ts[j]) }

  lemma DistinctKeysAppend(ts: seq<Target>, t: Target)
    requires DistinctKeys(ts) && Key(t) !in Keys(ts)
    ensures DistinctKeys(ts + [t])
  {
    hide Key;
  }

  lemma {:induction false} FirstOfKeysKeepsItsOwn(ts: seq<Target>)
    ensures Keys(FirstOfKeys(ts)) == Keys(ts) && DistinctKeys(FirstOfKeys(ts))
    ensures forall t | t in FirstOfKeys(ts) :: t in ts
  {
    if ts != [] {
      hide Key, Keys, DistinctKeys, FirstOfKeys;
      var before, last := ts[..|ts| - 1], ts[|ts| - 1];
      assert ts == before + [last];
      FirstOfKeysKeepsItsOwn(before);
      FirstOfKeysAppend(before, last);
      KeysAppend(before, last);
      KeysAppend(FirstOfKeys(before), last);
      if Key(last) !in Keys(before) { DistinctKeysAppend(FirstOfKeys(before), last); }
    }
  }

  /** Every successful parse yields printable targets with pairwise different keys. */
  lemma ParsedTargetsArePrintable(raw: string)
    requires Parsed(raw).Ok?
    ensures var ts := Parsed(raw).value;
            AllPrintable(ts) && DistinctKeys(ts)
  {
    hide ParseEntries, Printable;
    var trimmed := TrimSpace(raw);
    if trimmed != "" {
      var parts := Split(trimmed, ',');
      PiecesOf(trimmed, ',');
      ParsedEntriesArePrintable(parts);
      var all := ParseEntries(parts).value;
      FirstOfKeysKeepsItsOwn(all);
      var kept := FirstOfKeys(all);
      forall i | 0 <= i < |kept| ensures Printable(kept[i]) {
        assert kept[i] in all;
      }
    }
  }

  // ---------- round trips ----------

  /** Parsing the printed form of a list gives the list with later duplicates removed if and only if every target is
      trimmed, nonempty and free of commas and colons and no two different targets share a key. */
  lemma RoundTripExactlyWhen(ts: seq<Target>)
    ensures Parsed(Printed(ts)) == Ok(WithoutRepeats(ts)) <==> AllPrintable(ts) && KeysTellApart(ts)
  {
    hide Parsed, Printed, Printable;
    FirstOfKeysExactlyWhen(ts);
    if AllPrintable(ts) {
      PrintedReadsBack(ts);
    } else if Parsed(Printed(ts)) == Ok(WithoutRepeats(ts)) {
      ParsedTargetsArePrintable(Printed(ts));
      WithoutRepeatsIsTheSameSet(ts);
      forall i | 0 <= i < |ts| ensures Printable(ts[i]) {
        assert ts[i] in WithoutRepeats(ts);
      }
    }
  }

  /** In particular it does for printable targets whose tenants hold no NUL. */
  lemma NulFreeRoundTrip(ts: seq<Target>)
    requires AllPrintable(ts) && forall i | 0 <= i < |ts| :: '\0' !in ts[i].tenantID
    ensures Parsed(Printed(ts)) == Ok(WithoutRepeats(ts))
  {
    NulFreeKeysTellApart(ts);
    RoundTripExactlyWhen(ts);
  }

  /** Printing and re-parsing any successful parse gives the same list. */
  lemma ReparseIsStable(raw: string)
    requires Parsed(raw).Ok?
    ensures Parsed(Printed(Parsed(raw).value)) == Parsed(raw)
  {
    hide Parsed, Printed, Printable, Key;
    var ts := Parsed(raw).value;
    ParsedTargetsArePrintable(raw);
    NothingToRemove(ts);
    assert KeysTellApart(ts);
    RoundTripExactlyWhen(ts);
  }

  /** A NUL inside a tenant makes two different targets share a key, so one of them is lost. */
  lemma NulsLoseATarget()
    ensures var a, b := Target("a\0b", "c"), Target("a", "b\0c");
            AllPrintable([a, b]) && a != b && Parsed(Printed([a, b])) == Ok([a])
  {
    var a, b := Target("a\0b", "c"), Target("a", "b\0c");
    assert Key(a) == "a\0b\0c" && Key(b) == "a\0b\0c";
    PrintedReadsBack([a, b]);
    assert [a, b][..1] == [a] && [a][..0] == [];
    assert [] + [a] == [a];
    KeysAppend([], a);
    assert FirstOfKeys([a]) == [a] && Key(b) in Keys([a]);
    assert FirstOfKeys([a, b]) == [a];
  }

  // ---------- the program ----------

  lemma FirstOfKeysAppend(ts: seq<Target>, t: Target)
    ensures FirstOfKeys(ts + [t]) == if Key(t) in Keys(ts) then FirstOfKeys(ts) else FirstOfKeys(ts) + [t]
  {
    hide Key, Keys;
    assert (ts + [t])[..|ts|] == ts;
  }

  lemma ErrorAt(parts: seq<string>, i: nat)
    requires i < |parts| && ParseEntries(parts[..i]).Ok? && ParseEntry(parts[i]).Err?
    ensures ParseEntries(parts) == Err(ParseEntry(parts[i]).error)
  {
    hide ParseEntry;
    assert parts[..i + 1][..i] == parts[..i];
    FirstError(parts, i + 1);
  }

  method ParseTargets(raw: string) returns (result: Result<seq<Target>, ParseError>)
    ensures result == Parsed(raw)
  {
    hide ParseEntry, ParseEntries, Key, Keys, FirstOfKeys, TrimSpace, Split;
    var trimmed := TrimSpace(raw);
    if trimmed == "" {
      return Ok([]);
    }
    var parts := Split(trimmed, ',');
    var targets: seq<Target> := [];
    var seen: set<string> := {};
    ghost var all: seq<Target> := [];
    StartsEmpty();
    assert parts[..0] == [];
    for i := 0 to |parts|
      invariant ParseEntries(parts[..i]) == Ok(all)
      invariant targets == FirstOfKeys(all) && seen == Keys(all)
    {
      match ParseEntry(parts[i])
      case Err(e) =>
        ErrorAt(parts, i);
        return Err(e);
      case Ok(target) =>
        var key := Key(target);
        FirstOfKeysAppend(all, target);
        KeysAppend(all, target);
        ParseOneMore(parts[..i], parts[i]);
        assert parts[..i + 1] == parts[..i] + [parts[i]];
        if key !in seen {
          seen := seen + {key};
          targets := targets + [target];
        }
        all := all + [target];
    }
    assert parts[..|parts|] == parts;
    return Ok(targets);
  }

  lemma StartsEmpty()
    ensures ParseEntries([]) == Ok([]) && FirstOfKeys([]) == [] && Keys([]) == {}
  {
  }

  lemma {:induction false} FirstError(parts: seq<string>, k: nat)
    requires k <= |parts| && ParseEntries(parts[..k]).Err?
    ensures ParseEntries(parts) == ParseEntries(parts[..k])
  {
    if k == |parts| {
      assert parts[..k] == parts;
    } else {
      assert parts[..|parts| - 1][..k] == parts[..k];
      FirstError(parts[..|parts| - 1], k);
    }
  }

  method FormatTargets(targets: seq<Target>) returns (text: string)
    ensures text == Printed(targets)
  {
    if targets == [] {
      return "";
    }
    var parts: seq<string> := [];
    for i := 0 to |targets|
      invariant parts == Entries(targets[..i])
    {
      assert targets[..i + 1][..i] == targets[..i];
      if !(targets[i].tenantID == "" && targets[i].kbID == "") {
        parts := parts + [Entry(targets[i])];
      }
    }
    assert targets[..|targets|] == targets;
    text := Join(parts, ',');
  }
}
