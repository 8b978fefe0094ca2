/** JSON texts as RFC 8259 defines them (sections 2 to 7), with every optional space written out. */
module JsonGrammar {
  import opened Wrappers

  datatype StringItem =
    | Unescaped(c: char)
    | Escaped(c: char)
    | Hex(h0: char, h1: char, h2: char, h3: char)

  datatype Number = Number(minus: bool, whole: string, frac: Option<string>, exp: Option<Exponent>)
  datatype Exponent = Exponent(e: char, sign: string, digits: string)

  datatype Value =
    | False | Null | True
    | Num(n: Number)
    | Str(items: seq<StringItem>)
    | Arr(pad: string, elements: seq<Element>)
    | Obj(pad: string, members: seq<Member>)

  datatype Element = Element(before: string, value: Value, after: string)
  datatype Member = Member(before: string, key: seq<StringItem>, colonBefore: string, colonAfter: string,
                           value: Value, after: string)

  predicate IsWs(s: string) { forall i | 0 <= i < |s| :: s[i] in " \t\n\r" }

  predicate IsDigits(s: string) { s != "" && forall i | 0 <= i < |s| :: '0' <= s[i] <= '9' }

  predicate IsHex(c: char) { '0' <= c <= '9' || 'a' <= c <= 'f' || 'A' <= c <= 'F' }

  predicate ValidItem(it: StringItem) {
    match it
    case Unescaped(c) => c >= ' ' && c != '"' && c != '\\'
    case Escaped(c) => c in "\"\\/bfnrt"
    case Hex(h0, h1, h2, h3) => IsHex(h0) && IsHex(h1) && IsHex(h2) && IsHex(h3)
  }

  predicate ValidItems(items: seq<StringItem>) { forall i | 0 <= i < |items| :: ValidItem(items[i]) }

  predicate ValidNumber(n: Number) {
    && IsDigits(n.whole) && (n.whole[0] == '0' ==> |n.whole| == 1)
    && (n.frac.Some? ==> IsDigits(n.frac.value))
    && (n.exp.Some? ==> n.exp.value.e in "eE" && n.exp.value.sign in ["", "+", "-"] && IsDigits(n.exp.value.digits))
  }

  /** Side conditions of the grammar; `pad` is the space of an empty pair of brackets. */
  predicate Valid(v: Value) {
    match v
    case Num(n) => ValidNumber(n)
    case Str(items) => ValidItems(items)
    case Arr(pad, elements) => IsWs(pad) && forall i | 0 <= i < |elements| :: ValidElement(elements[i])
    case Obj(pad, members) => IsWs(pad) && forall i | 0 <= i < |members| :: ValidMember(members[i])
    case _ => true
  }

  predicate ValidElement(e: Element) {
    IsWs(e.before) && IsWs(e.after) && Valid(e.value)
  }

  predicate ValidMember(m: Member) {
    && IsWs(m.before) && IsWs(m.colonBefore) && IsWs(m.colonAfter) && IsWs(m.after)
    && ValidItems(m.key) && Valid(m.value)
  }

  function ItemText(it: StringItem): string {
    match it
    case Unescaped(c) => [c]
    case Escaped(c) => ['\\', c]
    case Hex(h0, h1, h2, h3) => ['\\', 'u', h0, h1, h2, h3]
  }

  function ItemsText(items: seq<StringItem>): string {
    if items == [] then "" else ItemText(items[0]) + ItemsText(items[1..])
  }

  function StringText(items: seq<StringItem>): string { "\"" + (ItemsText(items) + "\"") }

  function NumberText(n: Number): string {
    (if n.minus then "-" else "") + n.whole
    + (if n.frac.Some? then "." + n.frac.value else "")
    + (if n.exp.Some? then [n.exp.value.e] + n.exp.value.sign + n.exp.value.digits else "")
  }

  /** The text of a value, starting and ending at its own first and last character. */
  function Render(v: Value): string {
    match v
    case False => "false"
    case Null => "null"
    case True => "true"
    case Num(n) => NumberText(n)
    case Str(items) => StringText(items)
    case Arr(pad, elements) => "[" + ((if elements == [] then pad else RenderElements(elements)) + "]")
    case Obj(pad, members) => "{" + ((if members == [] then pad else RenderMembers(members)) + "}")
  }

  function RenderElements(elements: seq<Element>): string {
    if elements == [] then ""
    else
      (elements[0].before + (Render(elements[0].value) + elements[0].after))
      + ((if |elements| == 1 then "" else ",") + RenderElements(elements[1..]))
  }

  function RenderMembers(members: seq<Member>): string {
    if members == [] then ""
    else
      (members[0].before + (StringText(members[0].key) + (members[0].colonBefore + (":" + (members[0].colonAfter
        + (Render(members[0].value) + members[0].after))))))
      + ((if |members| == 1 then "" else ",") + RenderMembers(members[1..]))
  }
}
