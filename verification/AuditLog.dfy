/** The in-memory audit log: newest-first listing with filters and textual cursors. */
module AuditLog {
  import opened Wrappers
  import opened Text
  import opened Collections
  import opened Decimal
  import opened Sorting

  /** Times are nanoseconds since the epoch. */
  datatype Event = Event(id: string, createdAt: int, tenantID: string, projectID: string, resourceType: string,
                         resourceID: string, action: string, actorID: string, outcome: string)

  datatype Filter = Filter(tenantID: string, projectID: string, resourceType: string, resourceID: string,
                           action: string, actorID: string, outcome: string)

  datatype Key = Key(createdAt: int, id: string)

  function KeyOf(e: Event): Key { Key(e.createdAt, e.id) }

  predicate Matches(f: Filter, e: Event) {
    && (f.tenantID == "" || e.tenantID == f.tenantID)
    && (f.projectID == "" || e.projectID == f.projectID)
    && (f.resourceType == "" || e.resourceType == f.resourceType)
    && (f.resourceID == "" || e.resourceID == f.resourceID)
    && (f.action == "" || e.action == f.action)
    && (f.actorID == "" || e.actorID == f.actorID)
    && (f.outcome == "" || e.outcome == f.outcome)
  }

  // ---------- order ----------

  /** Newest first; among equal times the greater ID first. */
  predicate NotAfter(x: Event, y: Event) {
    x.createdAt > y.createdAt || (x.createdAt == y.createdAt && TextLe(y.id, x.id))
  }

  lemma OrderIsTotal()
    ensures TotalPreorder(NotAfter)
  {
    forall x, y ensures NotAfter(x, y) || NotAfter(y, x) { TextTotal(x.id, y.id); }
    forall x, y, z | NotAfter(x, y) && NotAfter(y, z) ensures NotAfter(x, z) {
      if x.createdAt == y.createdAt == z.createdAt { TextTransitive(z.id, y.id, x.id); }
    }
  }

  // ---------- cursors ----------

  function SkipSpace(s: string): (r: Option<string>)
    ensures r.Some? && r.value != "" ==> !IsSpace(r.value[0])
  {
    if s == "" then Some("")
    else if s[0] == '\n' || (s[0] == '\r' && |s| > 1 && s[1] == '\n') then None
    else if IsSpace(s[0]) then SkipSpace(s[1..])
    else Some(s)
  }

  function WordRun(s: string): (n: nat)
    ensures n <= |s| && (forall i | 0 <= i < n :: !IsSpace(s[i])) && (n < |s| ==> IsSpace(s[n]))
  {
    if s == "" || IsSpace(s[0]) then 0 else 1 + WordRun(s[1..])
  }

  /** `fmt.Sscanf(cursor, "%d_%s", ...)`. */
  function ParseCursor(cursor: string): Option<Key> {
    match SkipSpace(cursor)
    case None => None
    case Some(start) =>
      match ScanInt(start)
      case None => None
      case Some((t, rest)) =>
        if rest == "" || rest[0] != '_' then None
        else
          match SkipSpace(rest[1..])
          case None => None
          case Some(word) => if word == "" then None else Some(Key(t, word[..WordRun(word)]))
  }

  function EncodeCursor(k: Key): string { IntText(k.createdAt) + "_" + k.id }

  predicate WhitespaceFree(id: string) {
    id != "" && forall i | 0 <= i < |id| :: !IsSpace(id[i])
  }

  /** A cursor leads back to its event exactly when the event's ID is nonempty and has no white space. */
  lemma CursorRoundTrip(k: Key)
    ensures ParseCursor(EncodeCursor(k)) == Some(k) <==> WhitespaceFree(k.id)
  {
    var cursor := EncodeCursor(k);
    var rest := "_" + k.id;
    assert cursor == IntText(k.createdAt) + rest;
    IntTextRoundTrip(k.createdAt, rest);
    IntTextStart(k.createdAt);
    assert cursor[0] == IntText(k.createdAt)[0];
    assert SkipSpace(cursor) == Some(cursor);
    assert rest[1..] == k.id;
    if WhitespaceFree(k.id) {
      assert SkipSpace(k.id) == Some(k.id);
      assert WordRun(k.id) == |k.id| && k.id[..|k.id|] == k.id;
    }
  }

  lemma IntTextStart(i: int)
    ensures IntText(i) != "" && !IsSpace(IntText(i)[0])
  {
    DigitsRoundTrip(if i < 0 then -i else i);
    var digits := Digits(if i < 0 then -i else i);
    assert IsDigit(digits[0]);
  }

  /** White space without a line break, which the scanner would refuse. */
  ghost predicate Skippable(s: string) { forall i | 0 <= i < |s| :: IsSpace(s[i]) && s[i] != '\n' }

  /** The parts of a text that scans as a cursor: a signed number, an underscore and a word, each behind white space,
      and then anything that starts with white space. */
  datatype CursorParts = CursorParts(lead: string, sign: string, digits: string, gap: string, word: string, tail: string)

  ghost predicate Spells(p: CursorParts, cursor: string) {
    && cursor == p.lead + p.sign + p.digits + "_" + p.gap + p.word + p.tail
    && Skippable(p.lead) && Skippable(p.gap)
    && p.sign in {"", "-", "+"} && p.digits != "" && All(p.digits, IsDigit)
    && WhitespaceFree(p.word) && (p.tail != "" ==> IsSpace(p.tail[0]))
  }

  lemma {:induction false} SkipLead(lead: string, rest: string)
    requires Skippable(lead) && (rest != "" ==> !IsSpace(rest[0]))
    ensures SkipSpace(lead + rest) == Some(rest)
  {
    if lead == "" {
      assert lead + rest == rest;
    } else {
      assert (lead + rest)[1..] == lead[1..] + rest;
      SkipLead(lead[1..], rest);
      assert |lead| == 1 ==> rest == "" || rest[0] != '\n' by { assert IsSpace('\n'); }
    }
  }

  lemma {:induction false} SkippedLead(s: string) returns (k: nat)
    requires SkipSpace(s).Some?
    ensures k <= |s| && Skippable(s[..k]) && SkipSpace(s).value == s[k..]
  {
    if s != "" && IsSpace(s[0]) {
      var j := SkippedLead(s[1..]);
      k := j + 1;
      assert s[..k] == [s[0]] + s[1..][..j];
    } else {
      k := 0;
    }
  }

  lemma {:induction false} WordRunOf(word: string, tail: string)
    requires (forall i | 0 <= i < |word| :: !IsSpace(word[i])) && (tail != "" ==> IsSpace(tail[0]))
    ensures WordRun(word + tail) == |word|
  {
    if word == "" {
      assert word + tail == tail;
    } else {
      assert (word + tail)[1..] == word[1..] + tail;
      WordRunOf(word[1..], tail);
    }
  }

  function Signed(sign: string, digits: string): int
    requires All(digits, IsDigit)
  {
    var v: int := ValueOf(digits);
    if sign == "-" then -v else v
  }

  lemma ScanSigned(sign: string, digits: string, rest: string)
    requires sign in {"", "-", "+"} && digits != "" && All(digits, IsDigit) && (rest != "" ==> !IsDigit(rest[0]))
    ensures ScanInt(sign + digits + rest) == Some((Signed(sign, digits), rest))
  {
    hide ValueOf, DigitRun;
    var s, body := sign + digits + rest, digits + rest;
    DigitRunOf(digits, rest);
    assert body[..|digits|] == digits && body[|digits|..] == rest;
    assert s == sign + body;
    if sign == "" {
      assert s == body && s[0] == digits[0] && IsDigit(s[0]);
    } else {
      assert s[1..] == body && s[0] == sign[0];
    }
  }

  lemma ScannedSigned(s: string) returns (sign: string, digits: string, rest: string)
    requires ScanInt(s).Some?
    ensures s == sign + digits + rest && sign in {"", "-", "+"} && digits != "" && All(digits, IsDigit)
    ensures ScanInt(s).value.1 == rest
  {
    hide ValueOf, DigitRun, All;
    var signed := s != "" && (s[0] == '-' || s[0] == '+');
    var body := if signed then s[1..] else s;
    var n := DigitRun(body);
    sign, digits, rest := if signed then [s[0]] else "", body[..n], body[n..];
    assert s == sign + body;
    assert body == digits + rest;
    assert s == sign + digits + rest;
  }

  lemma SpelledParses(p: CursorParts, cursor: string)
    requires Spells(p, cursor)
    ensures ParseCursor(cursor) == Some(Key(Signed(p.sign, p.digits), p.word))
  {
    hide ScanInt, SkipSpace, WordRun, Signed;
    var rest := "_" + (p.gap + (p.word + p.tail));
    var start := p.sign + p.digits + rest;
    assert cursor == p.lead + start;
    StartsDark(p.sign, p.digits, rest);
    SkipLead(p.lead, start);
    ScanSigned(p.sign, p.digits, rest);
    assert rest[1..] == p.gap + (p.word + p.tail);
    assert p.word[0] == (p.word + p.tail)[0];
    SkipLead(p.gap, p.word + p.tail);
    WordRunOf(p.word, p.tail);
    assert (p.word + p.tail)[..|p.word|] == p.word;
  }

  lemma StartsDark(sign: string, digits: string, rest: string)
    requires sign in {"", "-", "+"} && digits != "" && All(digits, IsDigit)
    ensures sign + digits + rest != "" && !IsSpace((sign + digits + rest)[0])
  {
    assert (sign + digits + rest)[0] == if sign == "" then digits[0] else sign[0];
    assert IsDigit(digits[0]);
  }

  /** The text of a cursor in its three steps. */
  lemma StepsOfParsed(cursor: string)
    requires ParseCursor(cursor).Some?
    ensures SkipSpace(cursor).Some? && ScanInt(SkipSpace(cursor).value).Some?
    ensures var rest := ScanInt(SkipSpace(cursor).value).value.1;
            rest != "" && rest[0] == '_' && SkipSpace(rest[1..]).Some? && SkipSpace(rest[1..]).value != ""
  {
    hide ScanInt, SkipSpace, IsSpace, WordRun;
  }

  lemma Assemble(lead: string, sign: string, digits: string, gap: string, word: string, tail: string,
                 after: string, rest: string, start: string)
    requires after == gap + word + tail && rest == "_" + after && start == sign + digits + rest
    ensures lead + start == lead + sign + digits + "_" + gap + word + tail
  {
    assert start == sign + digits + "_" + gap + word + tail;
  }

  lemma PartsOfParsed(cursor: string) returns (p: CursorParts)
    requires ParseCursor(cursor).Some?
    ensures Spells(p, cursor)
  {
    hide ScanInt, SkipSpace, IsSpace, WordRun, All, Skippable, WhitespaceFree, ParseCursor;
    StepsOfParsed(cursor);
    var k := SkippedLead(cursor);
    var start := cursor[k..];
    var sign, digits, rest := ScannedSigned(start);
    var after := rest[1..];
    assert rest == "_" + after && cursor == cursor[..k] + start;
    var gap, word, tail := WordOf(after);
    Assemble(cursor[..k], sign, digits, gap, word, tail, after, rest, start);
    p := CursorParts(cursor[..k], sign, digits, gap, word, tail);
  }

  lemma WordOf(s: string) returns (gap: string, word: string, tail: string)
    requires SkipSpace(s).Some? && SkipSpace(s).value != ""
    ensures s == gap + word + tail && Skippable(gap) && WhitespaceFree(word) && (tail != "" ==> IsSpace(tail[0]))
  {
    var j := SkippedLead(s);
    var r := s[j..];
    var n := WordRun(r);
    hide IsSpace;
    gap, word, tail := s[..j], r[..n], r[n..];
    assert r == word + tail && s == gap + r;
  }

  /** Which texts are cursors, and of what: anything else is refused. */
  lemma CursorParsesExactlyWhen(cursor: string, t: int, id: string)
    ensures ParseCursor(cursor) == Some(Key(t, id)) <==>
            exists p :: Spells(p, cursor) && id == p.word && t == Signed(p.sign, p.digits)
  {
    hide ParseCursor, Signed;
    if ParseCursor(cursor).Some? {
      var p := PartsOfParsed(cursor);
      SpelledParses(p, cursor);
      forall q | Spells(q, cursor)
        ensures q.word == p.word && Signed(q.sign, q.digits) == Signed(p.sign, p.digits)
      {
        SpelledParses(q, cursor);
      }
    } else if p :| Spells(p, cursor) {
      SpelledParses(p, cursor);
    }
  }

  // ---------- one page ----------

  function Selected(s: seq<Event>, f: Filter): seq<Event> {
    if s == [] then []
    else Selected(s[..|s| - 1], f) + if Matches(f, s[|s| - 1]) then [s[|s| - 1]] else []
  }

  /** What follows the first event with the key; nothing when there is none. */
  function After(s: seq<Event>, key: Option<Key>): seq<Event> {
    if key == None then s
    else if s == [] then []
    else if KeyOf(s[0]) == key.value then s[1..]
    else After(s[1..], key)
  }

  function Take(s: seq<Event>, n: nat): seq<Event> { if |s| <= n then s else s[..n] }

  function Limit(limit: int): nat { if limit <= 0 then 50 else limit }

  datatype Page = Page(events: seq<Event>, next: string) | BadCursor

  function PageAfter(sorted: seq<Event>, f: Filter, limit: int, key: Option<Key>): (p: Page)
    ensures p.Page? && |p.events| <= Limit(limit)
  {
    var found := Take(Selected(After(sorted, key), f), Limit(limit));
    Page(found, if |found| == Limit(limit) then EncodeCursor(KeyOf(found[|found| - 1])) else "")
  }

  function List(events: seq<Event>, f: Filter, limit: int, cursor: string): Page {
    var sorted := Sort(events, NotAfter);
    if cursor == "" then PageAfter(sorted, f, limit, None)
    else
      match ParseCursor(cursor)
      case None => BadCursor
      case Some(key) => PageAfter(sorted, f, limit, Some(key))
  }

  lemma {:induction false} SelectedConcat(a: seq<Event>, b: seq<Event>, f: Filter)
    ensures Selected(a + b, f) == Selected(a, f) + Selected(b, f)
  {
    if b == [] {
      assert a + b == a;
    } else {
      assert (a + b)[..|a + b| - 1] == a + b[..|b| - 1];
      SelectedConcat(a, b[..|b| - 1], f);
    }
  }

  lemma {:induction false} SelectedMembers(s: seq<Event>, f: Filter)
    ensures |Selected(s, f)| <= |s|
    ensures forall e :: e in Selected(s, f) <==> e in s && Matches(f, e)
  {
    if s != [] {
      SelectedMembers(s[..|s| - 1], f);
      assert s == s[..|s| - 1] + [s[|s| - 1]];
    }
  }

  // ---------- following cursors ----------

  ghost predicate DistinctKeys(s: seq<Event>) {
    forall i, j | 0 <= i < j < |s| :: KeyOf(s[i]) != KeyOf(s[j])
  }

  ghost predicate Listable(s: seq<Event>) {
    DistinctKeys(s) && forall i | 0 <= i < |s| :: WhitespaceFree(s[i].id)
  }

  lemma {:induction false} AfterIsSuffix(s: seq<Event>, key: Option<Key>)
    ensures |After(s, key)| <= |s| && After(s, key) == s[|s| - |After(s, key)|..]
  {
    if key.Some? && s != [] && KeyOf(s[0]) != key.value {
      AfterIsSuffix(s[1..], key);
    }
  }

  lemma {:induction false} AfterAt(s: seq<Event>, i: nat)
    requires DistinctKeys(s) && i < |s|
    ensures After(s, Some(KeyOf(s[i]))) == s[i + 1..]
  {
    if i > 0 {
      AfterAt(s[1..], i - 1);
    }
  }

  /** The position of the last event of a page among the events it was taken from. */
  lemma {:induction false} PositionOfSelected(s: seq<Event>, f: Filter, n: nat) returns (i: nat)
    requires 0 < n <= |Selected(s, f)|
    ensures i < |s| && s[i] == Selected(s, f)[n - 1]
    ensures Selected(s[..i + 1], f) == Selected(s, f)[..n]
    ensures Selected(s[i + 1..], f) == Selected(s, f)[n..]
  {
    var last := |s| - 1;
    var front := s[..last];
    if |Selected(front, f)| >= n {
      i := PositionOfSelected(front, f, n);
      assert front[..i + 1] == s[..i + 1];
      assert s == s[..i + 1] + s[i + 1..];
      SelectedConcat(s[..i + 1], s[i + 1..], f);
    } else {
      i := last;
      assert s[..i + 1] == s && s[i + 1..] == [];
    }
  }

  /** The cursor of the event at position `i` of what follows a key leads to what follows that event. */
  lemma CursorOf(sorted: seq<Event>, key: Option<Key>, i: nat)
    requires Listable(sorted) && i < |After(sorted, key)|
    ensures var rest := After(sorted, key);
            && ParseCursor(EncodeCursor(KeyOf(rest[i]))) == Some(KeyOf(rest[i]))
            && After(sorted, Some(KeyOf(rest[i]))) == rest[i + 1..]
  {
    hide ParseCursor, EncodeCursor, WhitespaceFree, After, DistinctKeys;
    var rest := After(sorted, key);
    AfterIsSuffix(sorted, key);
    var base := |sorted| - |rest|;
    assert rest[i] == sorted[base + i];
    CursorRoundTrip(KeyOf(rest[i]));
    AfterAt(sorted, base + i);
    assert sorted[base + i + 1..] == rest[i + 1..];
  }

  lemma FullPage(sorted: seq<Event>, f: Filter, limit: int, key: Option<Key>)
    requires PageAfter(sorted, f, limit, key).next != ""
    ensures var page, found, n := PageAfter(sorted, f, limit, key), Selected(After(sorted, key), f), Limit(limit);
            n <= |found| && page == Page(found[..n], EncodeCursor(KeyOf(found[n - 1])))
  {
    hide Selected, After, EncodeCursor;
    var found := Selected(After(sorted, key), f);
    assert |found| == Limit(limit) ==> found[..Limit(limit)] == found;
  }

  /** A full page's cursor resumes exactly behind the page's last event. */
  lemma NextPageResumes(sorted: seq<Event>, f: Filter, limit: int, key: Option<Key>)
    requires Listable(sorted) && PageAfter(sorted, f, limit, key).next != ""
    ensures var page := PageAfter(sorted, f, limit, key);
            && ParseCursor(page.next).Some?
            && |After(sorted, ParseCursor(page.next))| < |After(sorted, key)|
            && Selected(After(sorted, key), f) == page.events + Selected(After(sorted, ParseCursor(page.next)), f)
            && |page.events| == Limit(limit)
  {
    hide Listable, ParseCursor, EncodeCursor, After, PageAfter, Selected;
    var rest, n := After(sorted, key), Limit(limit);
    var found := Selected(rest, f);
    FullPage(sorted, f, limit, key);
    var i := PositionOfSelected(rest, f, n);
    CursorOf(sorted, key, i);
    assert found == found[..n] + found[n..];
  }

  /** All pages from a cursor on, following the returned cursors until there is none. */
  ghost function Follow(sorted: seq<Event>, f: Filter, limit: int, key: Option<Key>): seq<seq<Event>>
    requires Listable(sorted)
    decreases |After(sorted, key)|
  {
    var page := PageAfter(sorted, f, limit, key);
    if page.next == "" then [page.events]
    else
      NextPageResumes(sorted, f, limit, key);
      [page.events] + Follow(sorted, f, limit, ParseCursor(page.next))
  }

  lemma LastPage(sorted: seq<Event>, f: Filter, limit: int, key: Option<Key>)
    requires PageAfter(sorted, f, limit, key).next == ""
    ensures PageAfter(sorted, f, limit, key).events == Selected(After(sorted, key), f)
    ensures |PageAfter(sorted, f, limit, key).events| < Limit(limit)
  {
  }

  /** Following cursors yields every selected event after the starting point once and in order. */
  lemma {:induction false} FollowCollects(sorted: seq<Event>, f: Filter, limit: int, key: Option<Key>)
    requires Listable(sorted)
    ensures Concat(Follow(sorted, f, limit, key)) == Selected(After(sorted, key), f)
    decreases |After(sorted, key)|
  {
    hide Listable, ParseCursor, PageAfter, After, Selected, Limit;
    var page := PageAfter(sorted, f, limit, key);
    if page.next == "" {
      LastPage(sorted, f, limit, key);
      ConcatPrepend(page.events, []);
      assert [page.events] + [] == [page.events];
    } else {
      NextPageResumes(sorted, f, limit, key);
      FollowCollects(sorted, f, limit, ParseCursor(page.next));
      ConcatPrepend(page.events, Follow(sorted, f, limit, ParseCursor(page.next)));
    }
  }

  /** Every page but the last is full, so there are no more than the log can fill, plus one. */
  lemma {:induction false} PagesAreFull(sorted: seq<Event>, f: Filter, limit: int, key: Option<Key>)
    requires Listable(sorted)
    ensures var pages := Follow(sorted, f, limit, key);
            && pages != [] && |pages[|pages| - 1]| < Limit(limit)
            && forall i | 0 <= i < |pages| - 1 :: |pages[i]| == Limit(limit)
    decreases |After(sorted, key)|
  {
    hide Listable, ParseCursor, PageAfter, After, Selected, Limit;
    if PageAfter(sorted, f, limit, key).next == "" {
      LastPage(sorted, f, limit, key);
    } else {
      NextPageResumes(sorted, f, limit, key);
      PagesAreFull(sorted, f, limit, ParseCursor(PageAfter(sorted, f, limit, key).next));
    }
  }

  /** Selecting keeps the order. */
  lemma {:induction false} SelectedInOrder(s: seq<Event>, f: Filter)
    requires Sorted(s, NotAfter) && DistinctKeys(s)
    ensures Sorted(Selected(s, f), NotAfter) && DistinctKeys(Selected(s, f))
  {
    hide NotAfter, Matches;
    if s != [] {
      var front, last := s[..|s| - 1], s[|s| - 1];
      SelectedInOrder(front, f);
      SelectedMembers(front, f);
      var kept := Selected(front, f);
      forall i | 0 <= i < |kept| ensures NotAfter(kept[i], last) && KeyOf(kept[i]) != KeyOf(last) {
        assert kept[i] in front;
        var j :| 0 <= j < |front| && front[j] == kept[i];
        assert s[j] == front[j];
      }
    }
  }

  /** An event passes a filter when each field the filter names is the event's own. */
  ghost predicate Passes(f: Filter, e: Event) {
    && f.tenantID in {"", e.tenantID} && f.projectID in {"", e.projectID}
    && f.resourceType in {"", e.resourceType} && f.resourceID in {"", e.resourceID}
    && f.action in {"", e.action} && f.actorID in {"", e.actorID} && f.outcome in {"", e.outcome}
  }

  /** What all pages together list: the events that pass, the newest first, equal times by greater ID first, each
      once; and every page but the last holds the limit, or 50 events when there is none. */
  lemma PagesNewestFirst(events: seq<Event>, f: Filter, limit: int)
    requires Listable(Sort(events, NotAfter))
    ensures var pages := Follow(Sort(events, NotAfter), f, limit, None); var log := Concat(pages);
            && (forall e :: e in log <==> e in events && Passes(f, e))
            && (forall i, j | 0 <= i < j < |log| ::
                  && log[i].createdAt >= log[j].createdAt
                  && (log[i].createdAt == log[j].createdAt ==> log[i].id != log[j].id && TextLe(log[j].id, log[i].id)))
            && (forall i | 0 <= i < |pages| - 1 :: |pages[i]| == if limit > 0 then limit else 50)
  {
    hide Listable, Follow, Selected, Sort, TextLe, WhitespaceFree;
    var sorted := Sort(events, NotAfter);
    PagesAreTheLog(events, f, limit);
    PagesAreFull(sorted, f, limit, None);
    SelectedInOrder(sorted, f) by { ListableIsDistinct(sorted); }
    assert forall e :: Matches(f, e) <==> Passes(f, e);
  }

  lemma ListableIsDistinct(s: seq<Event>)
    requires Listable(s)
    ensures DistinctKeys(s)
  {
  }

  /** From the empty cursor the pages are exactly the matching events of the log, newest first. */
  lemma PagesAreTheLog(events: seq<Event>, f: Filter, limit: int)
    requires Listable(Sort(events, NotAfter))
    ensures var sorted := Sort(events, NotAfter);
            && Sorted(sorted, NotAfter) && multiset(sorted) == multiset(events)
            && Concat(Follow(sorted, f, limit, None)) == Selected(sorted, f)
            && forall e :: e in Concat(Follow(sorted, f, limit, None)) <==> e in events && Matches(f, e)
  {
    hide Listable, Matches, Follow;
    OrderIsTotal();
    SortSorts(events, NotAfter);
    SelectedMembers(Sort(events, NotAfter), f);
    assert forall e :: e in Sort(events, NotAfter) <==> e in multiset(events);
    FollowCollects(Sort(events, NotAfter), f, limit, None);
  }

  lemma {:induction false} FirstSelected(s: seq<Event>, f: Filter, t: nat) returns (u: nat)
    requires t < |s| && Matches(f, s[t])
    ensures u <= t && Selected(s, f) != [] && Selected(s, f)[0] == s[u]
  {
    var front := s[..|s| - 1];
    if v :| 0 <= v < |front| && v <= t && Matches(f, front[v]) {
      u := FirstSelected(front, f, v);
    } else {
      NothingSelected(front, f);
      u := t;
    }
  }

  lemma {:induction false} NothingSelected(s: seq<Event>, f: Filter)
    requires forall i | 0 <= i < |s| :: !Matches(f, s[i])
    ensures Selected(s, f) == []
  {
    if s != [] { NothingSelected(s[..|s| - 1], f); }
  }

  /** Between two events with one key there are only events with that key. */
  lemma SameKeyBetween(x: Event, y: Event, z: Event)
    requires NotAfter(x, y) && NotAfter(y, z) && KeyOf(x) == KeyOf(z)
    ensures KeyOf(y) == KeyOf(x)
  {
    TextTotal(x.id, y.id);
  }

  lemma {:induction false} AfterFirst(s: seq<Event>, k: Key) returns (m: nat)
    requires exists i :: 0 <= i < |s| && KeyOf(s[i]) == k
    ensures m < |s| && KeyOf(s[m]) == k && After(s, Some(k)) == s[m + 1..]
    ensures forall i | 0 <= i < m :: KeyOf(s[i]) != k
  {
    if KeyOf(s[0]) == k {
      m := 0;
    } else {
      var i :| 0 <= i < |s| && KeyOf(s[i]) == k;
      assert KeyOf(s[1..][i - 1]) == k;
      m := AfterFirst(s[1..], k);
      m := m + 1;
      assert s[1..][m - 1] == s[m] && s[1..][m..] == s[m + 1..];
      assert forall j | 1 <= j < m :: s[1..][j - 1] == s[j];
    }
  }

  /** Two events with one key break the promise in every log: with one event a page the cursor never moves on once it
      names their key, if the later of them matches. */
  lemma EqualKeysRepeatForever(events: seq<Event>, f: Filter, i: nat, j: nat)
    requires i < j < |Sort(events, NotAfter)|
    requires var a, b := Sort(events, NotAfter)[i], Sort(events, NotAfter)[j];
             KeyOf(a) == KeyOf(b) && WhitespaceFree(b.id) && Matches(f, b)
    ensures var cursor := EncodeCursor(KeyOf(Sort(events, NotAfter)[j])); List(events, f, 1, cursor).Page? && List(events, f, 1, cursor).next == cursor
  {
    hide Matches, TextLe, WhitespaceFree, Selected, After, Sort, EncodeCursor, ParseCursor;
    var sorted := Sort(events, NotAfter);
    var k := KeyOf(sorted[j]);
    OrderIsTotal();
    SortSorts(events, NotAfter);
    assert NotAfter(sorted[i], sorted[j]);
    CursorRoundTrip(k);
    CursorIsNotEmpty(k);
    var m := AfterFirst(sorted, k);
    var rest := sorted[m + 1..];
    assert m <= i && rest[j - m - 1] == sorted[j];
    var u := FirstSelected(rest, f, j - m - 1);
    assert rest[u] == sorted[m + 1 + u];
    SameKeyBetween(sorted[m], rest[u], sorted[j]);
    FirstPageOf(sorted, f, k, rest);
  }

  lemma FirstPageOf(sorted: seq<Event>, f: Filter, k: Key, rest: seq<Event>)
    requires After(sorted, Some(k)) == rest && Selected(rest, f) != []
    ensures PageAfter(sorted, f, 1, Some(k)).next == EncodeCursor(KeyOf(Selected(rest, f)[0]))
  {
    hide After, Selected, EncodeCursor;
  }

  /** A text that is no cursor is refused, and a cursor whose event is not in the log lists nothing. */
  lemma ForeignCursorAnswers(events: seq<Event>, f: Filter, limit: int, cursor: string)
    ensures List(events, f, limit, cursor) == BadCursor <==> cursor != "" && ParseCursor(cursor) == None
    ensures cursor != "" && ParseCursor(cursor).Some? && (forall e | e in events :: KeyOf(e) != ParseCursor(cursor).value) ==>
              List(events, f, limit, cursor) == Page([], "")
  {
    hide ParseCursor, Sort, After, Selected, Matches, TextLe;
    var sorted, key := Sort(events, NotAfter), ParseCursor(cursor);
    if cursor != "" && key.Some? && forall e | e in events :: KeyOf(e) != key.value {
      forall i | 0 <= i < |sorted| ensures KeyOf(sorted[i]) != key.value {
        assert sorted[i] in multiset(sorted) && sorted[i] in multiset(events);
      }
      AfterMissing(sorted, key.value);
      NothingSelected([], f);
    }
  }

  // ---------- recording while someone pages ----------

  /** `x` sorts strictly before the event with key `k`. */
  predicate Precedes(x: Event, k: Key) {
    x.createdAt > k.createdAt || (x.createdAt == k.createdAt && x.id != k.id && TextLe(k.id, x.id))
  }

  /** An event that sorts before the cursor is inserted before it, so what follows the cursor stays. */
  lemma {:induction false} InsertBefore(s: seq<Event>, x: Event, k: Key)
    requires Sorted(s, NotAfter) && Precedes(x, k) && exists i :: 0 <= i < |s| && KeyOf(s[i]) == k
    ensures After(Insert(x, s, NotAfter), Some(k)) == After(s, Some(k))
    decreases |s|
  {
    hide TextLe, After, Precedes;
    var last := s[|s| - 1];
    var i :| 0 <= i < |s| && KeyOf(s[i]) == k;
    OrderIsTotal();
    assert NotAfter(s[i], last);
    assert !NotAfter(last, x) by { BehindStays(x, s[i], last); }
    var front := s[..|s| - 1];
    assert s == front + [last] && (i < |front| ==> front[i] == s[i]);
    if exists j :: 0 <= j < |front| && KeyOf(front[j]) == k {
      InsertBefore(front, x, k);
      InsertKeeps(x, front, NotAfter);
      KeyStays(front, x, k);
      AfterAppend(Insert(x, front, NotAfter), last, k);
      AfterAppend(front, last, k);
    } else {
      InsertKeeps(x, front, NotAfter);
      NoKey(front, x, k);
      AfterNew(Insert(x, front, NotAfter), last, k);
      AfterNew(front, last, k);
    }
  }

  lemma BehindStays(x: Event, c: Event, y: Event)
    requires Precedes(x, KeyOf(c)) && NotAfter(c, y)
    ensures !NotAfter(y, x)
  {
    if x.createdAt == c.createdAt == y.createdAt {
      TextTotal(x.id, c.id);
      if TextLe(x.id, y.id) {
        TextTransitive(x.id, y.id, c.id);
      }
    }
  }

  lemma KeyStays(front: seq<Event>, x: Event, k: Key)
    requires exists j :: 0 <= j < |front| && KeyOf(front[j]) == k
    ensures exists j :: 0 <= j < |Insert(x, front, NotAfter)| && KeyOf(Insert(x, front, NotAfter)[j]) == k
  {
    var r := Insert(x, front, NotAfter);
    InsertKeeps(x, front, NotAfter);
    var j :| 0 <= j < |front| && KeyOf(front[j]) == k;
    assert front[j] in multiset(r);
    var m :| 0 <= m < |r| && r[m] == front[j];
  }

  lemma NoKey(front: seq<Event>, x: Event, k: Key)
    requires KeyOf(x) != k && forall j | 0 <= j < |front| :: KeyOf(front[j]) != k
    ensures forall j | 0 <= j < |Insert(x, front, NotAfter)| :: KeyOf(Insert(x, front, NotAfter)[j]) != k
  {
    var r := Insert(x, front, NotAfter);
    InsertKeeps(x, front, NotAfter);
    forall j | 0 <= j < |r| ensures KeyOf(r[j]) != k {
      assert r[j] in multiset(r);
      if r[j] != x { assert r[j] in multiset(front); }
    }
  }

  lemma {:induction false} AfterAppend(s: seq<Event>, last: Event, k: Key)
    requires exists j :: 0 <= j < |s| && KeyOf(s[j]) == k
    ensures After(s + [last], Some(k)) == After(s, Some(k)) + [last]
  {
    var j :| 0 <= j < |s| && KeyOf(s[j]) == k;
    assert (s + [last])[1..] == s[1..] + [last];
    if KeyOf(s[0]) != k {
      assert s[1..][j - 1] == s[j];
      AfterAppend(s[1..], last, k);
    }
  }

  lemma {:induction false} AfterNew(s: seq<Event>, last: Event, k: Key)
    requires KeyOf(last) == k && forall j | 0 <= j < |s| :: KeyOf(s[j]) != k
    ensures After(s + [last], Some(k)) == []
  {
    if s == [] {
      assert s + [last] == [last];
    } else {
      assert (s + [last])[1..] == s[1..] + [last];
      AfterNew(s[1..], last, k);
    }
  }

  lemma SortedKeepsKey(events: seq<Event>, k: Key)
    requires exists i :: 0 <= i < |events| && KeyOf(events[i]) == k
    ensures exists j :: 0 <= j < |Sort(events, NotAfter)| && KeyOf(Sort(events, NotAfter)[j]) == k
    ensures Sorted(Sort(events, NotAfter), NotAfter)
  {
    hide TextLe, Sort;
    var sorted := Sort(events, NotAfter);
    OrderIsTotal();
    SortSorts(events, NotAfter);
    var i :| 0 <= i < |events| && KeyOf(events[i]) == k;
    assert events[i] in multiset(sorted);
    var j :| 0 <= j < |sorted| && sorted[j] == events[i];
  }

  lemma CursorIsNotEmpty(k: Key)
    ensures EncodeCursor(k) != ""
  {
    hide IntText;
  }

  ghost predicate HoldsKey(log: seq<Event>, k: Key) { exists i :: 0 <= i < |log| && KeyOf(log[i]) == k }

  predicate AllPrecede(xs: seq<Event>, k: Key) { forall i | 0 <= i < |xs| :: Precedes(xs[i], k) }

  lemma RecordedOneMore(log: seq<Event>, x: Event, k: Key)
    requires HoldsKey(log, k) && Precedes(x, k)
    ensures After(Sort(log + [x], NotAfter), Some(k)) == After(Sort(log, NotAfter), Some(k))
  {
    hide Precedes, Sort, After, Insert, TextLe, NotAfter;
    SortAppend(log, x, NotAfter);
    SortedKeepsKey(log, k);
    InsertBefore(Sort(log, NotAfter), x, k);
  }

  /** ... and so are any number of such events. */
  lemma {:induction false} RecordedAheadKeepsRest(log: seq<Event>, xs: seq<Event>, k: Key)
    requires HoldsKey(log, k) && AllPrecede(xs, k)
    ensures After(Sort(log + xs, NotAfter), Some(k)) == After(Sort(log, NotAfter), Some(k))
  {
    hide Precedes, Sort, After, NotAfter;
    if xs == [] {
      assert log + xs == log;
    } else {
      var front, x := xs[..|xs| - 1], xs[|xs| - 1];
      RecordedAheadKeepsRest(log, front, k);
      var i :| 0 <= i < |log| && KeyOf(log[i]) == k;
      assert (log + front)[i] == log[i];
      assert log + xs == (log + front) + [x];
      RecordedOneMore(log + front, x, k);
    }
  }

  lemma PrecedesLater(x: Event, c: Event, y: Event)
    requires Precedes(x, KeyOf(c)) && NotAfter(c, y)
    ensures Precedes(x, KeyOf(y))
  {
    if x.createdAt == c.createdAt == y.createdAt {
      TextTransitive(y.id, c.id, x.id);
      TextTotal(x.id, c.id);
    }
  }

  lemma {:induction false} AfterIsBehind(s: seq<Event>, k: Key, e: Event) returns (c: Event)
    requires Sorted(s, NotAfter) && e in After(s, Some(k))
    ensures e in s && KeyOf(c) == k && NotAfter(c, e)
  {
    if KeyOf(s[0]) == k {
      c := s[0];
      var i :| 0 <= i < |s[1..]| && s[1..][i] == e;
      assert s[i + 1] == e;
    } else {
      assert Sorted(s[1..], NotAfter) by { assert forall i, j | 0 <= i < j < |s[1..]| :: s[1..][i] == s[i + 1] && s[1..][j] == s[j + 1]; }
      c := AfterIsBehind(s[1..], k, e);
      assert forall x | x in s[1..] :: x in s;
    }
  }

  /** A full page's cursor names an event of the log behind the cursor the page was read from. */
  lemma NextCursor(log: seq<Event>, f: Filter, limit: int, k: Key) returns (c: Event, e: Event)
    requires PageAfter(Sort(log, NotAfter), f, limit, Some(k)).next != ""
    ensures e in log && KeyOf(c) == k && NotAfter(c, e)
    ensures PageAfter(Sort(log, NotAfter), f, limit, Some(k)).next == EncodeCursor(KeyOf(e))
  {
    hide Selected, After, EncodeCursor, TextLe;
    var sorted := Sort(log, NotAfter);
    OrderIsTotal();
    SortSorts(log, NotAfter);
    FullPage(sorted, f, limit, Some(k));
    var rest := After(sorted, Some(k));
    SelectedMembers(rest, f);
    e := Selected(rest, f)[Limit(limit) - 1];
    c := AfterIsBehind(sorted, k, e);
    assert e in multiset(sorted);
  }

  /** A client reads page after page from `cursor` on. Before each page the next round of events is recorded, all of
      which sort before the cursor the page is then read from. */
  ghost predicate ReadsOn(log: seq<Event>, rounds: seq<seq<Event>>, f: Filter, limit: int, cursor: string, pages: seq<Page>)
    decreases |pages|
  {
    && pages != [] && |rounds| == |pages|
    && ParseCursor(cursor).Some? && AllPrecede(rounds[0], ParseCursor(cursor).value)
    && pages[0] == List(log + rounds[0], f, limit, cursor) && pages[0].Page?
    && if pages[0].next == "" then |pages| == 1
       else |pages| > 1 && ReadsOn(log + rounds[0], rounds[1..], f, limit, pages[0].next, pages[1..])
  }

  function EventsOf(pages: seq<Page>): seq<seq<Event>>
    requires forall i | 0 <= i < |pages| :: pages[i].Page?
  {
    seq(|pages|, i requires 0 <= i < |pages| => pages[i].events)
  }

  /** The page behind a key of the log does not see what was recorded ahead of it. */
  lemma SamePage(log: seq<Event>, ahead: seq<Event>, f: Filter, limit: int, k: Key)
    requires Listable(Sort(log, NotAfter)) && HoldsKey(log, k) && AllPrecede(ahead, k)
    ensures WhitespaceFree(k.id)
    ensures List(log + ahead, f, limit, EncodeCursor(k)) == PageAfter(Sort(log, NotAfter), f, limit, Some(k))
  {
    hide TextLe, Sort, Insert, After, Selected, Precedes, Take, EncodeCursor, ParseCursor, WhitespaceFree;
    SortedKeepsKey(log, k);
    var j :| 0 <= j < |Sort(log, NotAfter)| && KeyOf(Sort(log, NotAfter)[j]) == k;
    assert WhitespaceFree(Sort(log, NotAfter)[j].id);
    CursorRoundTrip(k);
    CursorIsNotEmpty(k);
    RecordedAheadKeepsRest(log, ahead, k);
  }

  /** Whatever is recorded ahead of the cursors while someone reads on, before any of the pages, all remaining pages are
      those of the log as it was. */
  lemma {:induction false} RecordingAheadChangesNothing(log: seq<Event>, ahead: seq<Event>, rounds: seq<seq<Event>>,
                                                        f: Filter, limit: int, k: Key, pages: seq<Page>)
    requires Listable(Sort(log, NotAfter)) && HoldsKey(log, k) && AllPrecede(ahead, k)
    requires ReadsOn(log + ahead, rounds, f, limit, EncodeCursor(k), pages)
    ensures (forall i | 0 <= i < |pages| :: pages[i].Page?)
    ensures EventsOf(pages) == Follow(Sort(log, NotAfter), f, limit, Some(k))
    decreases |pages|
  {
    hide TextLe, Sort, Insert, After, Selected, Precedes, Take, EncodeCursor, ParseCursor, WhitespaceFree, List, PageAfter, Listable;
    var sorted, recorded := Sort(log, NotAfter), ahead + rounds[0];
    SamePage(log, [], f, limit, k);
    CursorRoundTrip(k);
    assert AllPrecede(recorded, k);
    assert log + ahead + rounds[0] == log + recorded;
    SamePage(log, recorded, f, limit, k);
    assert pages[0] == PageAfter(sorted, f, limit, Some(k));
    if pages[0].next != "" {
      var c, e := NextCursor(log, f, limit, k);
      NextPageResumes(sorted, f, limit, Some(k));
      assert HoldsKey(log, KeyOf(e));
      SamePage(log, [], f, limit, KeyOf(e));
      CursorRoundTrip(KeyOf(e));
      forall i | 0 <= i < |recorded| ensures Precedes(recorded[i], KeyOf(e)) { PrecedesLater(recorded[i], c, e); }
      RecordingAheadChangesNothing(log, recorded, rounds[1..], f, limit, KeyOf(e), pages[1..]);
      assert pages == [pages[0]] + pages[1..];
      assert EventsOf(pages) == [pages[0].events] + EventsOf(pages[1..]);
    }
  }

  // ---------- the program ----------

  class MemoryAuditRepository {
    var events: seq<Event>
    var byID: map<string, nat>

    ghost predicate Valid()
      reads this
    {
      && (forall id | id in byID :: byID[id] < |events| && events[byID[id]].id == id)
      && forall i | 0 <= i < |events| :: events[i].id in byID && byID[events[i].id] >= i
    }

    constructor ()
      ensures Valid() && events == []
    {
      events, byID := [], map[];
    }

    /** A missing ID or time is filled in. */
    method Record(event: Event, hasTime: bool, freshID: string, now: int)
      requires Valid()
      modifies this
      ensures Valid()
      ensures events == old(events) +
                [event.(id := if event.id == "" then freshID else event.id, createdAt := if hasTime then event.createdAt else now)]
    {
      var copy := event;
      if copy.id == "" {
        copy := copy.(id := freshID);
      }
      if !hasTime {
        copy := copy.(createdAt := now);
      }
      events := events + [copy];
      byID := byID[copy.id := |events| - 1];
    }

    /** The latest event recorded under an ID. */
    method Get(id: string) returns (r: Option<Event>)
      requires Valid()
      ensures r == None <==> forall i | 0 <= i < |events| :: events[i].id != id
      ensures r.Some? ==> exists i :: 0 <= i < |events| && r.value == events[i] && events[i].id == id &&
                            forall j | i < j < |events| :: events[j].id != id
    {
      if id !in byID {
        return None;
      }
      return Some(events[byID[id]]);
    }

    method ListEvents(f: Filter, limit: int, cursor: string) returns (page: Page)
      ensures page == List(events, f, limit, cursor)
    {
      hide Sort, After, Selected, ParseCursor, EncodeCursor, Matches;
      var n := Limit(limit);
      var key: Option<Key> := None;
      if cursor != "" {
        key := ParseCursor(cursor);
        if key == None {
          return BadCursor;
        }
      }
      var sorted := Sort(events, NotAfter);
      var result := ScanPage(sorted, f, n, key);
      var next := "";
      if |result| == n {
        next := EncodeCursor(KeyOf(result[|result| - 1]));
      }
      page := Page(result, next);
    }
  }

  lemma AfterStep(sorted: seq<Event>, key: Key, i: nat)
    requires i < |sorted|
    ensures var started := exists j :: 0 <= j < i && KeyOf(sorted[j]) == key;
            After(sorted[..i + 1], Some(key)) == if started then After(sorted[..i], Some(key)) + [sorted[i]] else []
  {
    var s := sorted[..i];
    assert sorted[..i + 1] == s + [sorted[i]];
    if j :| 0 <= j < i && KeyOf(sorted[j]) == key {
      assert s[j] == sorted[j];
      AfterAppend(s, sorted[i], key);
    } else {
      assert forall j | 0 <= j < |s| :: s[j] == sorted[j];
      if KeyOf(sorted[i]) == key { AfterNew(s, sorted[i], key); } else { AfterMissing(s + [sorted[i]], key); }
    }
  }

  lemma {:induction false} AfterMissing(s: seq<Event>, key: Key)
    requires forall j | 0 <= j < |s| :: KeyOf(s[j]) != key
    ensures After(s, Some(key)) == []
  {
    if s != [] { AfterMissing(s[1..], key); }
  }

  ghost predicate Started(sorted: seq<Event>, key: Option<Key>, i: nat)
    requires i <= |sorted|
  {
    key == None || exists j :: 0 <= j < i && KeyOf(sorted[j]) == key.value
  }

  lemma ScanStep(sorted: seq<Event>, f: Filter, key: Option<Key>, i: nat)
    requires i < |sorted|
    ensures Started(sorted, key, i + 1) <==> Started(sorted, key, i) || KeyOf(sorted[i]) == key.value
    ensures var before, after := Selected(After(sorted[..i], key), f), Selected(After(sorted[..i + 1], key), f);
            after == if !Started(sorted, key, i) then [] else if Matches(f, sorted[i]) then before + [sorted[i]] else before
  {
    var event := sorted[i];
    assert sorted[..i + 1] == sorted[..i] + [event];
    if key.Some? { AfterStep(sorted, key.value, i); }
    var before := After(sorted[..i], key);
    assert (before + [event])[..|before|] == before;
  }

  /** The scan loop with its `startFound` flag and early exit. */
  method ScanPage(sorted: seq<Event>, f: Filter, limit: nat, key: Option<Key>) returns (result: seq<Event>)
    requires limit > 0
    ensures result == Take(Selected(After(sorted, key), f), limit)
  {
    hide Matches, Selected, After, Started, KeyOf;
    result := [];
    var startFound := key == None;
    ScanStart(sorted, f, key);
    for i := 0 to |sorted|
      invariant startFound <==> Started(sorted, key, i)
      invariant result == Selected(After(sorted[..i], key), f) && |result| < limit
      invariant !startFound ==> key.Some? && result == []
    {
      ScanStep(sorted, f, key, i);
      var event := sorted[i];
      if !startFound {
        if KeyOf(event) == key.value {
          startFound := true;
        }
      } else if Matches(f, event) {
        result := result + [event];
        if |result| >= limit {
          TakeStops(sorted, f, key, i + 1, result);
          return;
        }
      }
    }
    assert sorted[..|sorted|] == sorted;
  }

  lemma ScanStart(sorted: seq<Event>, f: Filter, key: Option<Key>)
    ensures Started(sorted, key, 0) <==> key == None
    ensures Selected(After(sorted[..0], key), f) == []
  {
  }

  lemma TakeStops(sorted: seq<Event>, f: Filter, key: Option<Key>, i: nat, result: seq<Event>)
    requires i <= |sorted| && result == Selected(After(sorted[..i], key), f) && result != []
    requires Started(sorted, key, i)
    ensures Take(Selected(After(sorted, key), f), |result|) == result
  {
    var a, b := sorted[..i], sorted[i..];
    assert sorted == a + b;
    assert After(sorted, key) == After(a, key) + b by {
      if key.Some? {
        var j :| 0 <= j < i && KeyOf(sorted[j]) == key.value;
        assert a[j] == sorted[j];
        AfterConcat(a, b, key.value);
      }
    }
    SelectedConcat(After(a, key), b, f);
  }

  lemma {:induction false} AfterConcat(a: seq<Event>, b: seq<Event>, k: Key)
    requires exists j :: 0 <= j < |a| && KeyOf(a[j]) == k
    ensures After(a + b, Some(k)) == After(a, Some(k)) + b
  {
    var j :| 0 <= j < |a| && KeyOf(a[j]) == k;
    assert (a + b)[1..] == a[1..] + b;
    if KeyOf(a[0]) != k {
      assert a[1..][j - 1] == a[j];
      AfterConcat(a[1..], b, k);
    }
  }
}
