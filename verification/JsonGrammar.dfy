/** The JSON text grammar of RFC 8259, sections 2 to 7, as concrete syntax trees.
    A tree keeps every byte of the text, whitespace included, and Render spells it out again:
    a text is in the grammar when some well-formed tree renders to it. */
module JsonGrammar {
  import opened Wrappers
  import opened JsonBytes

  datatype StringChar =
    | Literal(c: Byte)
    | Short(c: Byte)
    | Unicode(hex: string)

  datatype Exponent = Exponent(mark: Byte, sign: string, digits: string)

  datatype NumberText = NumberText(
    minus: bool,
    whole: string,
    fraction: Option<string>,
    exponent: Option<Exponent>)

  datatype Value =
    | Word(text: string)
    | Num(number: NumberText)
    | Str(chars: seq<StringChar>)
    | Arr(items: seq<Item>, pad: string)
    | Obj(members: seq<Member>, pad: string)

  /** An array element with the whitespace around it. */
  datatype Item = Item(before: string, value: Value, after: string)

  /** An object member: before "key" mid : gap value after. */
  datatype Member = Member(before: string, key: seq<StringChar>, mid: string, gap: string, value: Value, after: string)

  /** A record: one object with whitespace around it. */
  datatype Document = Document(lead: string, members: seq<Member>, pad: string, trail: string)

  // ----- well-formedness

  predicate WellFormedChar(ch: StringChar) {
    match ch
    case Literal(c) => c >= ' ' && c != QUOTE && c != BACKSLASH
    case Short(c) => IsShortEscape(c)
    case Unicode(hex) => |hex| == 4 && forall i :: 0 <= i < 4 ==> IsHexDigit(hex[i])
  }

  predicate WellFormedChars(chars: seq<StringChar>) {
    forall i :: 0 <= i < |chars| ==> WellFormedChar(chars[i])
  }

  predicate WellFormedWhole(s: string) {
    s == "0" || (|s| > 0 && IsNonZeroDigit(s[0]) && AllDigits(s))
  }

  predicate WellFormedNumber(n: NumberText) {
    && WellFormedWhole(n.whole)
    && (n.fraction.Some? ==> |n.fraction.value| > 0 && AllDigits(n.fraction.value))
    && (n.exponent.Some? ==>
          var e := n.exponent.value;
          && (e.mark == 'e' || e.mark == 'E')
          && (e.sign == "" || e.sign == "+" || e.sign == "-")
          && |e.digits| > 0 && AllDigits(e.digits))
  }

  predicate WellFormedValue(v: Value)
    decreases v, 0
  {
    match v
    case Word(text) => text == "true" || text == "false" || text == "null"
    case Num(n) => WellFormedNumber(n)
    case Str(chars) => WellFormedChars(chars)
    case Arr(items, pad) => WellFormedItems(items) && AllWhitespace(pad) && (items != [] ==> pad == "")
    case Obj(members, pad) => WellFormedMembers(members) && AllWhitespace(pad) && (members != [] ==> pad == "")
  }

  predicate WellFormedItems(items: seq<Item>)
    decreases items, 0
  {
    forall i :: 0 <= i < |items| ==> WellFormedPadding(items[i]) && WellFormedValue(items[i].value)
  }

  predicate WellFormedPadding(item: Item) {
    AllWhitespace(item.before) && AllWhitespace(item.after)
  }

  predicate WellFormedMembers(members: seq<Member>)
    decreases members, 0
  {
    forall i :: 0 <= i < |members| ==> WellFormedLabel(members[i]) && WellFormedValue(members[i].value)
  }

  /** Everything of a member but its value. */
  predicate WellFormedLabel(m: Member) {
    && AllWhitespace(m.before) && WellFormedChars(m.key) && AllWhitespace(m.mid)
    && AllWhitespace(m.gap) && AllWhitespace(m.after)
  }

  predicate WellFormedDocument(d: Document) {
    AllWhitespace(d.lead) && WellFormedValue(Obj(d.members, d.pad)) && AllWhitespace(d.trail)
  }

  // ----- rendering

  function RenderChar(ch: StringChar): string {
    match ch
    case Literal(c) => [c]
    case Short(c) => [BACKSLASH, c]
    case Unicode(hex) => [BACKSLASH, 'u'] + hex
  }

  function RenderChars(chars: seq<StringChar>): string {
    if chars == [] then "" else RenderChars(chars[..|chars| - 1]) + RenderChar(chars[|chars| - 1])
  }

  function Quoted(chars: seq<StringChar>): string {
    [QUOTE] + RenderChars(chars) + [QUOTE]
  }

  function RenderNumber(n: NumberText): string {
    (if n.minus then "-" else "") + n.whole
    + (if n.fraction.Some? then "." + n.fraction.value else "")
    + (if n.exponent.Some? then [n.exponent.value.mark] + n.exponent.value.sign + n.exponent.value.digits else "")
  }

  function RenderValue(v: Value): string
    decreases v, 0
  {
    match v
    case Word(text) => text
    case Num(n) => RenderNumber(n)
    case Str(chars) => Quoted(chars)
    case Arr(items, pad) => "[" + RenderItems(items) + pad + "]"
    case Obj(members, pad) => "{" + RenderMembers(members) + pad + "}"
  }

  /** The items separated by commas. */
  function RenderItems(items: seq<Item>): string
    decreases items, 0
  {
    if items == [] then ""
    else RenderItems(items[..|items| - 1]) + Separator(|items| - 1) + RenderItem(items[|items| - 1])
  }

  function RenderItem(item: Item): string
    decreases item, 1
  {
    item.before + RenderValue(item.value) + item.after
  }

  /** The members separated by commas. */
  function RenderMembers(members: seq<Member>): string
    decreases members, 0
  {
    if members == [] then ""
    else RenderMembers(members[..|members| - 1]) + Separator(|members| - 1) + RenderMember(members[|members| - 1])
  }

  function RenderMember(m: Member): string
    decreases m, 1
  {
    m.before + Quoted(m.key) + m.mid + ":" + m.gap + RenderValue(m.value) + m.after
  }

  /** What stands before the element that follows `preceding` others. */
  function Separator(preceding: nat): string {
    if preceding == 0 then "" else ","
  }

  function RenderDocument(d: Document): string {
    d.lead + RenderValue(Obj(d.members, d.pad)) + d.trail
  }

  /** The text is whitespace, one JSON object, whitespace. */
  ghost predicate IsRecord(text: string) {
    exists d: Document :: WellFormedDocument(d) && RenderDocument(d) == text
  }

  // ----- the recorded working directory

  /** The UTF-16 code unit (or raw byte) that a string character stands for. */
  function CodeUnit(ch: StringChar): int
    requires WellFormedChar(ch)
  {
    match ch
    case Literal(c) => c as int
    case Short(c) => ShortEscapeValue(c)
    case Unicode(hex) => ((HexValue(hex[0]) * 16 + HexValue(hex[1])) * 16 + HexValue(hex[2])) * 16 + HexValue(hex[3])
  }

  function ShortEscapeValue(c: Byte): int {
    match c
    case 'b' => 8
    case 'f' => 12
    case 'n' => 10
    case 'r' => 13
    case 't' => 9
    case _ => c as int
  }

  /** The string decodes to exactly c, w, d, however each character is spelled. */
  predicate SpellsCwd(chars: seq<StringChar>)
    requires WellFormedChars(chars)
  {
    |chars| == |KEY| && forall i :: 0 <= i < |chars| ==> CodeUnit(chars[i]) == KEY[i] as int
  }

  /** How many members are keyed cwd. */
  function CwdCount(members: seq<Member>): nat
    requires WellFormedMembers(members)
  {
    if members == [] then 0
    else
      CwdCount(members[..|members| - 1]) + (if SpellsCwd(members[|members| - 1].key) then 1 else 0)
  }
}
