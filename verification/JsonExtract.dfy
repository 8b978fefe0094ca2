/** The scanner that cuts the JSON object out of a model's answer. */
module JsonExtract {
  import opened Wrappers
  import opened Text
  import opened JsonGrammar

  datatype ExtractError = EmptyResponse | NoObject | TrailingContent | IncompleteObject

  datatype Scanner = Scanner(inString: bool, escaped: bool, depth: int)

  function Outside(depth: int): Scanner { Scanner(false, false, depth) }

  /** One iteration of the scan loop. */
  function Step(st: Scanner, ch: char): Scanner {
    if st.inString then
      if st.escaped then st.(escaped := false)
      else if ch == '\\' then st.(escaped := true)
      else if ch == '"' then st.(inString := false)
      else st
    else if ch == '"' then st.(inString := true)
    else if ch == '{' then st.(depth := st.depth + 1)
    else if ch == '}' then st.(depth := st.depth - 1)
    else st
  }

  function Scan(st: Scanner, text: string): Scanner {
    if text == "" then st else Step(Scan(st, text[..|text| - 1]), text[|text| - 1])
  }

  predicate IsTick(c: char) { c == '`' }

  /** What is left after the outer backticks and then the outer spaces are dropped. */
  function Clean(raw: string): string { TrimSpace(Trim(raw, IsTick)) }

  /** `text` closes at `end`: the depth is back at zero there and not before. */
  ghost predicate ClosesAt(text: string, end: nat) {
    && 0 < end <= |text|
    && Scan(Outside(0), text[..end]).depth == 0
    && forall k | 0 < k < end :: Scan(Outside(0), text[..k]).depth > 0
  }

  ghost predicate FirstBrace(text: string, at: nat) {
    at < |text| && text[at] == '{' && forall i | 0 <= i < at :: text[i] != '{'
  }

  /** The object found in cleaned text: it starts at the first brace and ends where that brace closes. */
  ghost predicate Found(text: string, start: nat, end: nat) {
    FirstBrace(text, start) && ClosesAt(text[start..], end)
  }

  ghost predicate NeverCloses(text: string, start: nat) {
    FirstBrace(text, start) && forall end: nat :: !ClosesAt(text[start..], end)
  }

  ghost predicate Tolerated(tail: string) {
    TrimSpace(tail) == "" || TrimSpace(tail) == "```"
  }

  /** What the scan of a cleaned text promises for each answer. */
  ghost predicate Verdict(text: string, r: Result<string, ExtractError>) {
    match r
    case Err(EmptyResponse) => text == ""
    case Err(NoObject) => text != "" && forall i | 0 <= i < |text| :: text[i] != '{'
    case Err(IncompleteObject) => exists start: nat :: NeverCloses(text, start)
    case Err(TrailingContent) =>
      exists start: nat, end: nat :: Found(text, start, end) && !Tolerated(text[start + end..])
    case Ok(found) =>
      exists start: nat, end: nat ::
        Found(text, start, end) && Tolerated(text[start + end..]) && found == text[start..start + end]
  }

  ghost predicate Extracts(raw: string, r: Result<string, ExtractError>) {
    Verdict(Clean(raw), r)
  }

  lemma ScanNothing(st: Scanner, text: string)
    ensures Scan(st, text[..0]) == st
  {
  }

  lemma ScanStep(st: Scanner, text: string, k: nat)
    requires k < |text|
    ensures Scan(st, text[..k + 1]) == Step(Scan(st, text[..k]), text[k])
  {
    assert text[..k + 1][..k] == text[..k];
  }

  method ExtractJSONObject(raw: string) returns (r: Result<string, ExtractError>)
    ensures Extracts(raw, r)
  {
    hide Clean, TrimSpace, Scan;
    var text := Clean(raw);
    if text == "" {
      return Err(EmptyResponse);
    }
    var start := 0;
    while start < |text| && text[start] != '{'
      invariant start <= |text| && forall i | 0 <= i < start :: text[i] != '{'
    {
      start := start + 1;
    }
    if start == |text| {
      return Err(NoObject);
    }
    assert FirstBrace(text, start);
    ghost var rest := text[start..];
    var inString, escaped, depth := false, false, 0;
    var i := start;
    ScanNothing(Outside(0), rest);
    while i < |text|
      invariant start <= i <= |text|
      invariant Scan(Outside(0), rest[..i - start]) == Scanner(inString, escaped, depth)
      invariant escaped ==> inString
      invariant i > start ==> depth > 0
      invariant forall k | 0 < k <= i - start :: Scan(Outside(0), rest[..k]).depth > 0
    {
      var ch := text[i];
      ScanStep(Outside(0), rest, i - start);
      i := i + 1;
      if inString {
        if escaped {
          escaped := false;
        } else if ch == '\\' {
          escaped := true;
        } else if ch == '"' {
          inString := false;
        }
      } else if ch == '"' {
        inString := true;
      } else if ch == '{' {
        depth := depth + 1;
      } else if ch == '}' {
        depth := depth - 1;
        if depth == 0 {
          assert Found(text, start, i - start) && text[start + (i - start)..] == text[i..];
          var tail := TrimSpace(text[i..]);
          if tail != "" && tail != "```" {
            return Err(TrailingContent);
          }
          return Ok(text[start..i]);
        }
      }
    }
    forall end: nat ensures !ClosesAt(rest, end) {
      if 0 < end <= |rest| {
        assert Scan(Outside(0), rest[..end]).depth > 0;
      }
    }
    assert NeverCloses(text, start);
    return Err(IncompleteObject);
  }

  lemma FoundOnce(text: string, start: nat, end: nat, s: nat, e: nat)
    requires Found(text, start, end) && Found(text, s, e)
    ensures s == start && e == end
  {
    assert text[s] == '{' && text[start] == '{';
    ClosesOnce(text[start..], end, e);
  }

  lemma ClosesOnce(text: string, a: nat, b: nat)
    requires ClosesAt(text, a) && ClosesAt(text, b)
    ensures a == b
  {
  }

  lemma FoundDecidesOk(text: string, start: nat, end: nat, found: string)
    requires Found(text, start, end) && Verdict(text, Ok(found))
    ensures Tolerated(text[start + end..]) && found == text[start..start + end]
  {
    var s: nat, e: nat :| Found(text, s, e) && Tolerated(text[s + e..]) && found == text[s..s + e];
    FoundOnce(text, start, end, s, e);
  }

  lemma FoundDecidesErr(text: string, start: nat, end: nat, error: ExtractError)
    requires Found(text, start, end) && Verdict(text, Err(error))
    ensures error == TrailingContent && !Tolerated(text[start + end..])
  {
    hide Scan, Tolerated;
    assert text[start] == '{';
    if error == TrailingContent {
      var s: nat, e: nat :| Found(text, s, e) && !Tolerated(text[s + e..]);
      FoundOnce(text, start, end, s, e);
    }
  }

  lemma FoundDecides(text: string, start: nat, end: nat, r: Result<string, ExtractError>)
    requires Found(text, start, end) && Verdict(text, r)
    ensures r == if Tolerated(text[start + end..]) then Ok(text[start..start + end]) else Err(TrailingContent)
  {
    match r
    case Ok(found) => FoundDecidesOk(text, start, end, found);
    case Err(error) => FoundDecidesErr(text, start, end, error);
  }

  /** The promise leaves no choice: it determines the answer. */
  lemma ExtractsIsFunctional(raw: string, r: Result<string, ExtractError>, s: Result<string, ExtractError>)
    requires Extracts(raw, r) && Extracts(raw, s)
    ensures r == s
  {
    var text := Clean(raw);
    if start: nat, end: nat :| Found(text, start, end) {
      FoundDecides(text, start, end, r);
      FoundDecides(text, start, end, s);
    }
  }

  // ---------- the scanner on grammatical texts ----------

  /** Scanning `text` outside a string at depth `d` ends in the same state and never goes below `d`. */
  ghost predicate Neutral(text: string, d: int) {
    && Scan(Outside(d), text) == Outside(d)
    && forall k | 0 <= k <= |text| :: Scan(Outside(d), text[..k]).depth >= d
  }

  lemma {:induction false} ScanConcat(st: Scanner, a: string, b: string)
    ensures Scan(st, a + b) == Scan(Scan(st, a), b)
  {
    if b == "" {
      assert a + b == a;
    } else {
      assert (a + b)[..|a + b| - 1] == a + b[..|b| - 1];
      ScanConcat(st, a, b[..|b| - 1]);
    }
  }

  lemma NeutralConcat(a: string, b: string, d: int)
    requires Neutral(a, d) && Neutral(b, d)
    ensures Neutral(a + b, d)
  {
    ScanConcat(Outside(d), a, b);
    forall k | 0 <= k <= |a + b| ensures Scan(Outside(d), (a + b)[..k]).depth >= d {
      if k <= |a| {
        assert (a + b)[..k] == a[..k];
      } else {
        assert (a + b)[..k] == a + b[..k - |a|];
        ScanConcat(Outside(d), a, b[..k - |a|]);
      }
    }
  }

  /** Texts without quotes or braces do not move the scanner. */
  lemma {:induction false} NeutralPlain(s: string, d: int)
    requires forall i | 0 <= i < |s| :: s[i] != '"' && s[i] != '{' && s[i] != '}'
    ensures Neutral(s, d)
  {
    if s != "" {
      var front := s[..|s| - 1];
      NeutralPlain(front, d);
      forall k | 0 <= k <= |s| ensures Scan(Outside(d), s[..k]).depth >= d {
        if k < |s| {
          assert s[..k] == front[..k];
        } else {
          assert s[..k] == s;
        }
      }
    }
  }

  lemma {:induction false} ScanItems(items: seq<StringItem>, d: int)
    requires ValidItems(items)
    ensures var inside := Scanner(true, false, d);
            && Scan(inside, ItemsText(items)) == inside
            && forall k | 0 <= k <= |ItemsText(items)| :: Scan(inside, ItemsText(items)[..k]).depth >= d
  {
    var inside := Scanner(true, false, d);
    if items != [] {
      var head, tail := ItemText(items[0]), ItemsText(items[1..]);
      ScanItems(items[1..], d);
      ScanItem(items[0], d);
      ScanConcat(inside, head, tail);
      forall k | 0 <= k <= |head + tail| ensures Scan(inside, (head + tail)[..k]).depth >= d {
        if k <= |head| {
          assert (head + tail)[..k] == head[..k];
        } else {
          assert (head + tail)[..k] == head + tail[..k - |head|];
          ScanConcat(inside, head, tail[..k - |head|]);
        }
      }
    }
  }

  lemma ScanItem(it: StringItem, d: int)
    requires ValidItem(it)
    ensures var inside := Scanner(true, false, d);
            && Scan(inside, ItemText(it)) == inside
            && forall k | 0 <= k <= |ItemText(it)| :: Scan(inside, ItemText(it)[..k]).depth >= d
  {
    var inside, t := Scanner(true, false, d), ItemText(it);
    for n := 0 to |t|
      invariant forall k | 0 <= k <= n ::
        Scan(inside, t[..k]) == Scanner(true, k == 1 && t[0] == '\\', d)
    {
      ScanStep(inside, t, n);
    }
    assert t[..|t|] == t;
  }

  lemma NeutralString(items: seq<StringItem>, d: int)
    requires ValidItems(items)
    ensures Neutral(StringText(items), d)
  {
    var body := ItemsText(items);
    var t := StringText(items);
    ScanItems(items, d);
    var inside := Scanner(true, false, d);
    assert Scan(Outside(d), "\"") == inside by { assert "\""[..0] == ""; }
    forall k | 0 <= k <= |t| ensures Scan(Outside(d), t[..k]).depth >= d && (k == |t| ==> Scan(Outside(d), t[..k]) == Outside(d)) {
      if k > 0 {
        if k < |t| {
          assert t[..k] == "\"" + body[..k - 1];
          ScanConcat(Outside(d), "\"", body[..k - 1]);
        } else {
          assert t[..|t| - 1] == "\"" + body;
          ScanConcat(Outside(d), "\"", body);
          ScanStep(Outside(d), t, |t| - 1);
        }
      }
    }
    assert t[..|t|] == t;
  }

  /** An object never returns to the depth it was entered at before its last character. */
  lemma ScanBraces(inner: string, d: int)
    requires Neutral(inner, d + 1)
    ensures Neutral("{" + (inner + "}"), d)
    ensures forall k | 0 < k < |inner| + 2 :: Scan(Outside(d), ("{" + (inner + "}"))[..k]).depth > d
  {
    var t := "{" + (inner + "}");
    assert Scan(Outside(d), "{") == Outside(d + 1) by { assert "{"[..0] == ""; }
    forall k | 0 <= k <= |t|
      ensures 0 < k < |t| ==> Scan(Outside(d), t[..k]).depth > d
      ensures k == |t| ==> Scan(Outside(d), t[..k]) == Outside(d)
    {
      if 0 < k < |t| {
        assert t[..k] == "{" + inner[..k - 1];
        ScanConcat(Outside(d), "{", inner[..k - 1]);
      } else if k == |t| {
        assert t[..|t| - 1] == "{" + inner;
        ScanConcat(Outside(d), "{", inner);
        ScanStep(Outside(d), t, |t| - 1);
      }
    }
    assert t[..|t|] == t;
  }

  lemma NeutralNumber(n: Number, d: int)
    requires ValidNumber(n)
    ensures Neutral(NumberText(n), d)
  {
    NeutralPlain(NumberText(n), d);
  }

  /** The scanner's state is restored after every value, at every nesting depth. */
  lemma {:induction false} NeutralValue(v: Value, d: int)
    requires Valid(v)
    ensures Neutral(Render(v), d)
    decreases v
  {
    match v
    case False => NeutralPlain("false", d);
    case Null => NeutralPlain("null", d);
    case True => NeutralPlain("true", d);
    case Num(n) => NeutralNumber(n, d);
    case Str(items) => NeutralString(items, d);
    case Arr(pad, elements) =>
      if elements == [] { NeutralPlain(pad, d); } else { NeutralElements(elements, d); }
      var body := if elements == [] then pad else RenderElements(elements);
      NeutralPlain("[", d);
      NeutralPlain("]", d);
      NeutralConcat(body, "]", d);
      NeutralConcat("[", body + "]", d);
    case Obj(pad, members) =>
      if members == [] { NeutralPlain(pad, d + 1); } else { NeutralMembers(members, d + 1); }
      ScanBraces(if members == [] then pad else RenderMembers(members), d);
  }

  lemma {:induction false} NeutralElements(elements: seq<Element>, d: int)
    requires forall i | 0 <= i < |elements| :: ValidElement(elements[i])
    ensures Neutral(RenderElements(elements), d)
    decreases elements
  {
    if elements == [] {
      NeutralPlain("", d);
    } else {
      var e, rest := elements[0], RenderElements(elements[1..]);
      NeutralValue(e.value, d);
      NeutralElements(elements[1..], d);
      NeutralPlain(e.before, d);
      NeutralPlain(e.after, d);
      var sep := if |elements| == 1 then "" else ",";
      NeutralPlain(sep, d);
      NeutralConcat(Render(e.value), e.after, d);
      NeutralConcat(e.before, Render(e.value) + e.after, d);
      NeutralConcat(sep, rest, d);
      NeutralConcat(e.before + (Render(e.value) + e.after), sep + rest, d);
    }
  }

  lemma {:induction false} NeutralMembers(members: seq<Member>, d: int)
    requires forall i | 0 <= i < |members| :: ValidMember(members[i])
    ensures Neutral(RenderMembers(members), d)
    decreases members
  {
    if members == [] {
      NeutralPlain("", d);
    } else {
      var m, rest := members[0], RenderMembers(members[1..]);
      NeutralValue(m.value, d);
      NeutralMembers(members[1..], d);
      NeutralString(m.key, d);
      NeutralPlain(m.before, d);
      NeutralPlain(m.colonBefore, d);
      NeutralPlain(m.colonAfter, d);
      NeutralPlain(m.after, d);
      NeutralPlain(":", d);
      var sep := if |members| == 1 then "" else ",";
      NeutralPlain(sep, d);
      var t := Render(m.value) + m.after;
      NeutralConcat(Render(m.value), m.after, d);
      NeutralConcat(m.colonAfter, t, d);
      NeutralConcat(":", m.colonAfter + t, d);
      NeutralConcat(m.colonBefore, ":" + (m.colonAfter + t), d);
      NeutralConcat(StringText(m.key), m.colonBefore + (":" + (m.colonAfter + t)), d);
      NeutralConcat(m.before, StringText(m.key) + (m.colonBefore + (":" + (m.colonAfter + t))), d);
      NeutralConcat(sep, rest, d);
      NeutralConcat(m.before + (StringText(m.key) + (m.colonBefore + (":" + (m.colonAfter + t)))), sep + rest, d);
    }
  }

  // ---------- what extraction does to JSON objects ----------

  /** An object text closes exactly at its end, whatever follows it. */
  lemma ObjectCloses(v: Value, after: string)
    requires Valid(v) && v.Obj?
    ensures ClosesAt(Render(v) + after, |Render(v)|)
    ensures Render(v)[0] == '{' && Render(v)[|Render(v)| - 1] == '}'
  {
    var j := Render(v);
    var inner := if v.members == [] then v.pad else RenderMembers(v.members);
    if v.members == [] { NeutralPlain(v.pad, 1); } else { NeutralMembers(v.members, 1); }
    ScanBraces(inner, 0);
    assert forall k | 0 <= k <= |j| :: (j + after)[..k] == j[..k];
    assert j[..|j|] == j;
  }

  lemma CleanAround(prose: string, j: string, tail: string)
    requires j != "" && j[0] == '{' && j[|j| - 1] == '}'
    ensures Clean(prose + j + tail) ==
            TrimLeft(TrimLeft(prose, IsTick), IsSpace) + j + TrimRight(TrimRight(tail, IsTick), IsSpace)
  {
    TrimAround(prose, j, tail, IsTick);
    TrimAround(TrimLeft(prose, IsTick), j, TrimRight(tail, IsTick), IsSpace);
  }

  function Ticks(n: nat): string { seq(n, _ => '`') }

  /** White space and then backticks. */
  ghost predicate BlankThenTicks(tail: string, a: string, n: nat) { All(a, IsSpace) && tail == a + Ticks(n) }

  /** White space around one code fence, and then backticks. */
  ghost predicate FenceThenTicks(tail: string, a: string, b: string, n: nat) {
    All(a, IsSpace) && All(b, IsSpace) && tail == a + "```" + b + Ticks(n)
  }

  ghost predicate ClosingTail(tail: string) {
    || (exists a: string, n: nat :: BlankThenTicks(tail, a, n))
    || (exists a: string, b: string, n: nat :: FenceThenTicks(tail, a, b, n))
  }

  /** What the scan sees behind the object, trimmed. */
  function LeftOver(tail: string): string { TrimSpace(TrimRight(TrimRight(tail, IsTick), IsSpace)) }

  lemma TrimSplit(t: string) returns (a: string, b: string)
    ensures t == a + TrimSpace(t) + b && All(a, IsSpace) && All(b, IsSpace)
  {
    var i := TrimLeftSplit(t, IsSpace);
    var l := TrimLeft(t, IsSpace);
    var j := TrimRightSplit(l, IsSpace);
    a, b := t[..i], l[j..];
    assert t == t[..i] + t[i..] && l == l[..j] + l[j..];
  }

  lemma EndSplit(tail: string) returns (c: string, n: nat)
    ensures tail == TrimRight(TrimRight(tail, IsTick), IsSpace) + c + Ticks(n) && All(c, IsSpace)
  {
    var t := TrimRight(tail, IsTick);
    var k := TrimRightSplit(tail, IsTick);
    var j := TrimRightSplit(t, IsSpace);
    n := |tail| - k;
    c := t[j..];
    hide TrimRight;
    assert tail[k..] == Ticks(n);
    assert tail == tail[..k] + tail[k..] && t == t[..j] + t[j..];
  }

  lemma LeftOverShows(tail: string)
    requires LeftOver(tail) == "" || LeftOver(tail) == "```"
    ensures ClosingTail(tail)
  {
    var c, n := EndSplit(tail);
    var a, b := TrimSplit(TrimRight(TrimRight(tail, IsTick), IsSpace));
    hide TrimRight, TrimLeft, Trim, TrimSpace, Ticks;
    assert tail == a + LeftOver(tail) + b + c + Ticks(n);
    if LeftOver(tail) == "" {
      assert tail == (a + (b + c)) + Ticks(n);
      assert BlankThenTicks(tail, a + (b + c), n);
    } else {
      assert tail == a + "```" + (b + c) + Ticks(n);
      assert FenceThenTicks(tail, a, b + c, n);
    }
  }

  lemma TicksTrimmed(body: string, n: nat)
    requires body == "" || !IsTick(body[|body| - 1])
    ensures TrimRight(body + Ticks(n), IsTick) == body
  {
    TrimAll(Ticks(n), IsTick);
    if body == "" {
      assert body + Ticks(n) == Ticks(n);
    } else {
      TrimRightAround(body, Ticks(n), IsTick);
      assert body + "" == body;
    }
  }

  lemma BlankLeavesNothing(a: string, n: nat)
    requires All(a, IsSpace)
    ensures LeftOver(a + Ticks(n)) == ""
  {
    if a != "" { assert IsSpace(a[|a| - 1]); }
    TicksTrimmed(a, n);
    TrimAll(a, IsSpace);
  }

  lemma FenceIsLeft(a: string, b: string, n: nat)
    requires All(a, IsSpace) && All(b, IsSpace) && b != ""
    ensures LeftOver(a + "```" + b + Ticks(n)) == "```"
  {
    var body := a + "```" + b;
    assert body[|body| - 1] == b[|b| - 1] && IsSpace(b[|b| - 1]);
    TicksTrimmed(body, n);
    TrimRightAround(a + "```", b, IsSpace);
    TrimAll(b, IsSpace);
    assert a + "```" + "" == a + "```";
    TrimAround(a, "```", "", IsSpace);
    TrimAll(a, IsSpace);
  }

  /** Behind an object nothing is left but perhaps one fence, for exactly these tails. */
  lemma LeftOverExactlyWhen(tail: string)
    ensures LeftOver(tail) == "" || LeftOver(tail) == "```" <==> ClosingTail(tail)
  {
    hide LeftOver;
    if LeftOver(tail) == "" || LeftOver(tail) == "```" {
      LeftOverShows(tail);
    }
    if a: string, n: nat :| BlankThenTicks(tail, a, n) {
      BlankLeavesNothing(a, n);
    } else if a: string, b: string, n: nat :| FenceThenTicks(tail, a, b, n) {
      if b == "" {
        assert tail == a + Ticks(n + 3);
        BlankLeavesNothing(a, n + 3);
      } else {
        FenceIsLeft(a, b, n);
      }
    }
  }

  lemma FoundInside(lead: string, j: string, rest: string)
    requires '{' !in lead && j != "" && j[0] == '{' && ClosesAt(j + rest, |j|)
    ensures var text := lead + j + rest;
            Found(text, |lead|, |j|) && text[|lead|..|lead| + |j|] == j && text[|lead| + |j|..] == rest
  {
    var text := lead + j + rest;
    assert text[..|lead|] == lead && text[|lead|..] == j + rest;
  }

  /** What the scan sees of an object between prose and a tail. */
  lemma FoundBetween(prose: string, v: Value, tail: string) returns (text: string, at: nat, rest: string)
    requires Valid(v) && v.Obj? && '{' !in prose
    ensures Clean(prose + Render(v) + tail) == text && Found(text, at, |Render(v)|)
    ensures text[at..at + |Render(v)|] == Render(v) && text[at + |Render(v)|..] == rest
    ensures Tolerated(rest) <==> ClosingTail(tail)
  {
    var j := Render(v);
    var lead := TrimLeft(TrimLeft(prose, IsTick), IsSpace);
    rest := TrimRight(TrimRight(tail, IsTick), IsSpace);
    ObjectCloses(v, rest);
    CleanAround(prose, j, tail);
    LeftOverExactlyWhen(tail);
    NoBraceLeft(prose);
    hide Scan, Trim, TrimSpace, TrimLeft, TrimRight, Clean, Found, ClosingTail, Render, ClosesAt;
    FoundInside(lead, j, rest);
    text, at := lead + j + rest, |lead|;
  }

  lemma NoBraceLeft(prose: string)
    requires '{' !in prose
    ensures '{' !in TrimLeft(TrimLeft(prose, IsTick), IsSpace)
  {
    var i := TrimLeftSplit(prose, IsTick);
    var k := TrimLeftSplit(TrimLeft(prose, IsTick), IsSpace);
  }

  /** Every JSON object, however nested and however its strings are escaped, behind prose that holds no opening brace:
      it is cut out whole if and only if the tail is white space with at most one code fence, closed by backticks,
      and any other tail is refused. */
  lemma ExtractsEveryObject(prose: string, v: Value, tail: string)
    requires Valid(v) && v.Obj? && '{' !in prose
    ensures Extracts(prose + Render(v) + tail, Ok(Render(v))) <==> ClosingTail(tail)
    ensures Extracts(prose + Render(v) + tail, Err(TrailingContent)) <==> !ClosingTail(tail)
  {
    hide Clean, Found, Tolerated, ClosingTail, Render, Verdict, Valid;
    var text, at, rest := FoundBetween(prose, v, tail);
    FoundVerdict(text, at, |Render(v)|);
  }

  lemma FoundVerdict(text: string, start: nat, end: nat)
    requires Found(text, start, end)
    ensures start + end <= |text|
    ensures Verdict(text, Ok(text[start..start + end])) <==> Tolerated(text[start + end..])
    ensures Verdict(text, Err(TrailingContent)) <==> !Tolerated(text[start + end..])
  {
    hide Tolerated, ClosesAt;
    assert start + end <= |text| by { InRange(text, start, end); }
    var found: Result<string, ExtractError>, refused: Result<string, ExtractError> :=
      Ok(text[start..start + end]), Err(TrailingContent);
    if Verdict(text, found) { FoundDecides(text, start, end, found); }
    if Verdict(text, refused) { FoundDecides(text, start, end, refused); }
  }

  lemma InRange(text: string, start: nat, end: nat)
    requires Found(text, start, end)
    ensures start + end <= |text|
  {
    hide Scan;
  }

  /** In particular an object followed by anything but white space and backticks is refused. */
  lemma TrailingProseIsRefused(prose: string, v: Value, tail: string, i: nat)
    requires Valid(v) && v.Obj? && '{' !in prose && i < |tail| && !IsSpace(tail[i]) && tail[i] != '`'
    ensures Extracts(prose + Render(v) + tail, Err(TrailingContent))
  {
    hide Extracts, Valid, Render;
    NotClosing(tail, i);
    ExtractsEveryObject(prose, v, tail);
  }

  lemma NotClosing(tail: string, i: nat)
    requires i < |tail| && !IsSpace(tail[i]) && tail[i] != '`'
    ensures !ClosingTail(tail)
  {
    hide IsSpace;
  }

  lemma TickSplit(raw: string) returns (m: nat, n: nat)
    ensures raw == Ticks(m) + Trim(raw, IsTick) + Ticks(n)
  {
    m := TrimLeftSplit(raw, IsTick);
    var l := TrimLeft(raw, IsTick);
    var k := TrimRightSplit(l, IsTick);
    n := |l| - k;
    hide TrimLeft, TrimRight;
    assert raw[..m] == Ticks(m) && l[k..] == Ticks(n);
    assert raw == raw[..m] + raw[m..] && l == l[..k] + l[k..];
  }

  lemma CleanSplit(raw: string) returns (m: nat, a: string, b: string, n: nat)
    ensures raw == Ticks(m) + a + Clean(raw) + b + Ticks(n) && All(a, IsSpace) && All(b, IsSpace)
  {
    m, n := TickSplit(raw);
    a, b := TrimSplit(Trim(raw, IsTick));
    hide Trim, TrimSpace, Ticks, All;
    assert Ticks(m) + (a + Clean(raw) + b) + Ticks(n) == Ticks(m) + a + Clean(raw) + b + Ticks(n);
  }

  ghost predicate BlankInTicks(raw: string, m: nat, a: string, n: nat) { All(a, IsSpace) && raw == Ticks(m) + a + Ticks(n) }

  lemma EmptyExactlyWhen(raw: string)
    ensures Clean(raw) == "" <==> exists m: nat, a: string, n: nat :: BlankInTicks(raw, m, a, n)
  {
    var m, a, b, n := CleanSplit(raw);
    hide Clean;
    if Clean(raw) == "" {
      assert BlankInTicks(raw, m, a + b, n);
    }
    if i: nat, sp: string, j: nat :| BlankInTicks(raw, i, sp, j) {
      BlankIsEmpty(i, sp, j);
    }
  }

  lemma BraceSurvives(raw: string)
    ensures '{' in raw <==> '{' in Clean(raw)
  {
    var m, a, b, n := CleanSplit(raw);
    hide Clean;
    assert '{' !in Ticks(m) && '{' !in Ticks(n) && '{' !in a && '{' !in b;
  }

  /** The two answers that need no object: nothing but white space between backticks, or no opening brace. */
  lemma NothingToExtractExactlyWhen(raw: string)
    ensures Extracts(raw, Err(EmptyResponse)) <==> exists m: nat, a: string, n: nat :: BlankInTicks(raw, m, a, n)
    ensures Extracts(raw, Err(NoObject)) <==> '{' !in raw && !Extracts(raw, Err(EmptyResponse))
  {
    hide Clean;
    EmptyExactlyWhen(raw);
    BraceSurvives(raw);
  }

  lemma BlankIsEmpty(m: nat, a: string, n: nat)
    requires All(a, IsSpace)
    ensures Clean(Ticks(m) + a + Ticks(n)) == ""
  {
    if a == "" {
      assert Ticks(m) + a + Ticks(n) == Ticks(m + n);
      TrimAll(Ticks(m + n), IsTick);
    } else {
      assert IsSpace(a[0]) && IsSpace(a[|a| - 1]);
      TrimAround(Ticks(m), a, Ticks(n), IsTick);
      TrimAll(Ticks(m), IsTick);
      TrimAll(Ticks(n), IsTick);
      assert "" + a + "" == a;
      TrimAll(a, IsSpace);
    }
  }

  lemma CleanPrefix(p: string) returns (b: nat)
    requires p != "" && p[0] == '{'
    ensures 0 < b <= |p| && Clean(p) == p[..b]
  {
    var a := TrimRightSplit(p, IsTick);
    assert a > 0;
    var q := p[..a];
    assert Trim(p, IsTick) == q && q[0] == '{';
    b := TrimRightSplit(q, IsSpace);
    assert b > 0;
    assert q[..b] == p[..b];
  }

  /** No proper prefix of an object is accepted. */
  lemma RejectsTruncatedObject(v: Value, cut: nat)
    requires Valid(v) && v.Obj? && cut < |Render(v)|
    ensures Extracts(Render(v)[..cut], Err(if cut == 0 then EmptyResponse else IncompleteObject))
  {
    var j := Render(v);
    if cut > 0 {
      ObjectCloses(v, "");
      assert j + "" == j;
      var b := CleanPrefix(j[..cut]);
      var text := j[..b];
      assert j[..cut][..b] == text;
      NeverClosesPrefix(j, b);
    }
  }

  lemma NeverClosesPrefix(j: string, b: nat)
    requires j != "" && j[0] == '{' && ClosesAt(j, |j|) && 0 < b < |j|
    ensures NeverCloses(j[..b], 0)
  {
    var text := j[..b];
    assert text[0..] == text;
    forall end: nat ensures !ClosesAt(text, end) {
      if 0 < end <= b {
        assert text[..end] == j[..end];
      }
    }
  }

  /** Whatever was extracted, extracting again changes nothing. */
  lemma ExtractionIsIdempotent(raw: string, found: string)
    requires Extracts(raw, Ok(found))
    ensures Extracts(found, Ok(found))
  {
    hide Scan;
    var text := Clean(raw);
    var start: nat, end: nat :|
      Found(text, start, end) && Tolerated(text[start + end..]) && found == text[start..start + end];
    var rest := text[start..];
    assert found == rest[..end];
    assert forall k | 0 <= k <= end :: found[..k] == rest[..k];
    LastIsBrace(found);
    TrimNothing(found, IsTick);
    TrimNothing(found, IsSpace);
    assert found + "" == found && found[0..] == found;
    FoundInside("", found, "");
    assert "" + found + "" == found;
    assert TrimSpace("") == "";
    assert Found(found, 0, |found|) && found[0 + |found|..] == "" && found == found[0..0 + |found|];
  }

  lemma LastIsBrace(found: string)
    requires ClosesAt(found, |found|) && found[0] == '{'
    ensures found[|found| - 1] == '}'
  {
    ScanStep(Outside(0), found, |found| - 1);
    ScanStep(Outside(0), found, 0);
    assert found[..0] == "";
    assert found[..|found|] == found;
  }
}
