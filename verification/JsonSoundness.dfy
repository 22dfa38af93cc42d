/** Every text the machine accepts is in the grammar. The proof carries, next to the machine's state,
    a syntax tree that is still being built: its rendering is exactly the bytes read so far, and its
    shape agrees with the container stack and the token under way. */
module JsonSoundness {
  import opened Wrappers
  import opened JsonBytes
  import opened JsonGrammar
  import M = CwdMachine

  /** An open container, by what it has read. */
  datatype Partial =
    | ObjStart(pad: string)
    | ObjNextKey(members: seq<Member>, pad: string)
    | ObjColon(members: seq<Member>, before: string, key: seq<StringChar>, mid: string)
    | ObjValue(members: seq<Member>, before: string, key: seq<StringChar>, mid: string, gap: string)
    | ObjNext(members: seq<Member>)
    | ArrStart(pad: string)
    | ArrNextValue(items: seq<Item>, pad: string)
    | ArrNext(items: seq<Item>)

  datatype Token =
    | NoToken
    | KeyToken(chars: seq<StringChar>, pending: string)
    | TextToken(chars: seq<StringChar>, pending: string)
    | WordToken(done: string, rest: string)
    | NumToken(number: NumberText)

  /** A record of which some bytes were read. */
  datatype Prefix =
    | Before(lead: string)
    | Inside(lead: string, outer: seq<Partial>, inner: Partial, token: Token)
    | After(document: Document)

  // ----- rendering what was read

  function RenderPartial(p: Partial): string {
    match p
    case ObjStart(pad) => "{" + pad
    case ObjNextKey(members, pad) => "{" + RenderMembers(members) + "," + pad
    case ObjColon(members, before, key, mid) =>
      "{" + RenderMembers(members) + Separator(|members|) + before + Quoted(key) + mid
    case ObjValue(members, before, key, mid, gap) =>
      "{" + RenderMembers(members) + Separator(|members|) + before + Quoted(key) + mid + ":" + gap
    case ObjNext(members) => "{" + RenderMembers(members)
    case ArrStart(pad) => "[" + pad
    case ArrNextValue(items, pad) => "[" + RenderItems(items) + "," + pad
    case ArrNext(items) => "[" + RenderItems(items)
  }

  function RenderToken(t: Token): string {
    match t
    case NoToken => ""
    case KeyToken(chars, pending) => [QUOTE] + RenderChars(chars) + pending
    case TextToken(chars, pending) => [QUOTE] + RenderChars(chars) + pending
    case WordToken(done, rest) => done
    case NumToken(n) => RenderNumber(n)
  }

  function RenderOuter(outer: seq<Partial>): string {
    if outer == [] then "" else RenderOuter(outer[..|outer| - 1]) + RenderPartial(outer[|outer| - 1])
  }

  function RenderPrefix(x: Prefix): string {
    match x
    case Before(lead) => lead
    case Inside(lead, outer, inner, token) => lead + RenderOuter(outer) + RenderPartial(inner) + RenderToken(token)
    case After(d) => RenderDocument(d)
  }

  // ----- agreement with the machine

  predicate WellFormedPartial(p: Partial) {
    match p
    case ObjStart(pad) => AllWhitespace(pad)
    case ObjNextKey(members, pad) => members != [] && WellFormedMembers(members) && AllWhitespace(pad)
    case ObjColon(members, before, key, mid) =>
      WellFormedMembers(members) && AllWhitespace(before) && WellFormedChars(key) && AllWhitespace(mid)
    case ObjValue(members, before, key, mid, gap) =>
      && WellFormedMembers(members) && AllWhitespace(before) && WellFormedChars(key)
      && AllWhitespace(mid) && AllWhitespace(gap)
    case ObjNext(members) => members != [] && WellFormedMembers(members)
    case ArrStart(pad) => AllWhitespace(pad)
    case ArrNextValue(items, pad) => items != [] && WellFormedItems(items) && AllWhitespace(pad)
    case ArrNext(items) => items != [] && WellFormedItems(items)
  }

  function PhaseOf(p: Partial): M.Phase {
    match p
    case ObjStart(_) => M.ObjectKeyOrEnd
    case ObjNextKey(_, _) => M.ObjectKey
    case ObjColon(_, _, _, _) => M.ObjectColon
    case ObjValue(_, _, _, _, _) => M.ObjectValue
    case ObjNext(_) => M.ObjectCommaOrEnd
    case ArrStart(_) => M.ArrayValueOrEnd
    case ArrNextValue(_, _) => M.ArrayValue
    case ArrNext(_) => M.ArrayCommaOrEnd
  }

  predicate IsObject(p: Partial) {
    !p.ArrStart? && !p.ArrNextValue? && !p.ArrNext?
  }

  predicate FrameFits(p: Partial, f: M.Frame) {
    WellFormedPartial(p) && f.phase == PhaseOf(p) && f.kind == if IsObject(p) then '{' else '['
  }

  predicate ExpectsValue(p: Partial) {
    p.ObjValue? || p.ArrStart? || p.ArrNextValue?
  }

  predicate EscapeFits(pending: string, e: M.Escape) {
    match e
    case Plain => pending == ""
    case Backslash => pending == [BACKSLASH]
    case UnicodeDigits(digits, _) =>
      && 1 <= digits <= 4 && |pending| == 6 - digits && pending[0] == BACKSLASH && pending[1] == 'u'
      && forall i :: 2 <= i < |pending| ==> IsHexDigit(pending[i])
  }

  predicate NumberFits(n: NumberText, state: M.NumberState) {
    && (state.AfterMinus? ==> n == NumberText(true, "", None, None))
    && (state.Zero? ==> n.whole == "0")
    && (state.Integer? ==> |n.whole| > 0 && IsNonZeroDigit(n.whole[0]) && AllDigits(n.whole))
    && (state.Zero? || state.Integer? ==> n.fraction.None? && n.exponent.None?)
    && (state.AfterDot? ==> WellFormedWhole(n.whole) && n.fraction == Some("") && n.exponent.None?)
    && (state.Fraction? ==> WellFormedNumber(n) && n.fraction.Some? && n.exponent.None?)
    && (state.AfterExponent? || state.AfterExponentSign? ==>
          && WellFormedNumber(n.(exponent := None)) && n.exponent.Some? && n.exponent.value.digits == ""
          && (n.exponent.value.mark == 'e' || n.exponent.value.mark == 'E'))
    && (state.AfterExponent? ==> n.exponent.value.sign == "")
    && (state.AfterExponentSign? ==> n.exponent.value.sign == "+" || n.exponent.value.sign == "-")
    && (state.ExponentDigits? ==> WellFormedNumber(n) && n.exponent.Some?)
  }

  predicate TokenFits(t: Token, inner: Partial, l: M.Lexeme) {
    match l
    case Between => t.NoToken?
    case KeyString(e, _, _) =>
      && t.KeyToken? && WellFormedChars(t.chars) && EscapeFits(t.pending, e)
      && (inner.ObjStart? || inner.ObjNextKey?)
    case TextString(_, e, _, _) =>
      t.TextToken? && WellFormedChars(t.chars) && EscapeFits(t.pending, e) && ExpectsValue(inner)
    case WordRest(rest) =>
      && t.WordToken? && t.rest == rest && rest != "" && ExpectsValue(inner)
      && (t.done + rest == "true" || t.done + rest == "false" || t.done + rest == "null")
    case Number(state) => t.NumToken? && NumberFits(t.number, state) && ExpectsValue(inner)
  }

  predicate OuterFits(outer: seq<Partial>, below: seq<M.Frame>) {
    |outer| == |below| && forall i :: 0 <= i < |outer| ==> FrameFits(outer[i], below[i]) && ExpectsValue(outer[i])
  }

  predicate Fits(x: Prefix, c: M.Control) {
    match c
    case Fresh => x.Before? && AllWhitespace(x.lead)
    case Open(below, top, lexeme) =>
      && x.Inside? && AllWhitespace(x.lead) && OuterFits(x.outer, below) && FrameFits(x.inner, top)
      && TokenFits(x.token, x.inner, lexeme)
      && IsObject((x.outer + [x.inner])[0])
    case Complete => x.After? && WellFormedDocument(x.document)
    case Broken => false
  }

  // ----- values

  function ReadInto(p: Partial, v: Value): Partial
    requires ExpectsValue(p)
  {
    match p
    case ObjValue(members, before, key, mid, gap) => ObjNext(members + [Member(before, key, mid, gap, v, "")])
    case ArrStart(pad) => ArrNext([Item(pad, v, "")])
    case ArrNextValue(items, pad) => ArrNext(items + [Item(pad, v, "")])
  }

  lemma {:induction false} SnocMember(members: seq<Member>, m: Member)
    ensures RenderMembers(members + [m]) == RenderMembers(members) + Separator(|members|) + RenderMember(m)
  {
    hide RenderMember, Separator;
    var all := members + [m];
    assert all[..|all| - 1] == members && all[|all| - 1] == m;
  }

  lemma {:induction false} SnocItem(items: seq<Item>, item: Item)
    ensures RenderItems(items + [item]) == RenderItems(items) + Separator(|items|) + RenderItem(item)
  {
    hide RenderItem, Separator;
    var all := items + [item];
    assert all[..|all| - 1] == items && all[|all| - 1] == item;
  }

  lemma {:induction false} ReadIntoWellFormed(p: Partial, v: Value)
    requires ExpectsValue(p) && WellFormedPartial(p) && WellFormedValue(v)
    ensures WellFormedPartial(ReadInto(p, v))
    ensures IsObject(ReadInto(p, v)) == IsObject(p) && PhaseOf(ReadInto(p, v)) ==
              if IsObject(p) then M.ObjectCommaOrEnd else M.ArrayCommaOrEnd
  {
  }

  lemma {:induction false} ReadIntoRenders(p: Partial, v: Value)
    requires ExpectsValue(p) && WellFormedPartial(p)
    ensures RenderPartial(ReadInto(p, v)) == RenderPartial(p) + RenderValue(v)
  {
    hide RenderValue;
    match p
    case ObjValue(members, before, key, mid, gap) => ReadMemberRenders(members, before, key, mid, gap, v);
    case ArrStart(pad) => ReadFirstItemRenders(pad, v);
    case ArrNextValue(items, pad) => ReadItemRenders(items, pad, v);
  }

  lemma {:induction false} ReadMemberRenders(members: seq<Member>, before: string, key: seq<StringChar>, mid: string,
                                             gap: string, v: Value)
    ensures RenderPartial(ObjNext(members + [Member(before, key, mid, gap, v, "")]))
            == RenderPartial(ObjValue(members, before, key, mid, gap)) + RenderValue(v)
  {
    var m := Member(before, key, mid, gap, v, "");
    SnocMember(members, m);
    assert RenderMember(m) == before + Quoted(key) + mid + ":" + gap + RenderValue(v) + "";
    hide *;
    MemberPieces(RenderMembers(members), Separator(|members|), before, Quoted(key), mid, gap, RenderValue(v));
    assert RenderMembers(members + [m]) == RenderMembers(members) + Separator(|members|) + RenderMember(m);
  }

  lemma MemberPieces(a: string, b: string, c: string, d: string, e: string, f: string, g: string)
    ensures "{" + (a + b + (c + d + e + ":" + f + g + "")) == ("{" + a + b + c + d + e + ":" + f) + g
  {
    assert c + d + e + ":" + f + g + "" == c + d + e + ":" + f + g;
    assert a + b + (c + d + e + ":" + f + g) == a + b + c + d + e + ":" + f + g;
  }

  lemma {:induction false} ReadFirstItemRenders(pad: string, v: Value)
    ensures RenderPartial(ArrNext([Item(pad, v, "")])) == RenderPartial(ArrStart(pad)) + RenderValue(v)
  {
    var item := Item(pad, v, "");
    SnocItem([], item);
    assert [] + [item] == [item];
    assert RenderItem(item) == pad + RenderValue(v) + "";
    assert RenderItems([]) == "" && Separator(0) == "";
    assert RenderPartial(ArrNext([item])) == "[" + RenderItems([item]);
    assert RenderPartial(ArrStart(pad)) == "[" + pad;
    hide *;
    FirstItemPieces(pad, RenderValue(v));
  }

  lemma FirstItemPieces(a: string, b: string)
    ensures "[" + ("" + "" + (a + b + "")) == ("[" + a) + b
  {
    assert "" + "" + (a + b + "") == a + b;
  }

  lemma {:induction false} ReadItemRenders(items: seq<Item>, pad: string, v: Value)
    requires items != []
    ensures RenderPartial(ArrNext(items + [Item(pad, v, "")])) ==
              RenderPartial(ArrNextValue(items, pad)) + RenderValue(v)
  {
    var item := Item(pad, v, "");
    SnocItem(items, item);
    assert RenderItem(item) == pad + RenderValue(v) + "";
    assert Separator(|items|) == ",";
    assert RenderPartial(ArrNext(items + [item])) == "[" + RenderItems(items + [item]);
    assert RenderPartial(ArrNextValue(items, pad)) == "[" + RenderItems(items) + "," + pad;
    hide *;
    ItemPieces(RenderItems(items), pad, RenderValue(v));
  }

  lemma ItemPieces(a: string, b: string, c: string)
    ensures "[" + (a + "," + (b + c + "")) == ("[" + a + "," + b) + c
  {
    assert b + c + "" == b + c;
    assert a + "," + (b + c) == a + "," + b + c;
  }

  // ----- tokens that grow by one byte

  function GrownNumber(n: NumberText, b: Byte, state': M.NumberState): NumberText
    requires state'.Fraction? ==> n.fraction.Some?
    requires state'.AfterExponentSign? || state'.ExponentDigits? ==> n.exponent.Some?
  {
    match state'
    case AfterMinus => n
    case Zero => n.(whole := n.whole + [b])
    case Integer => n.(whole := n.whole + [b])
    case AfterDot => n.(fraction := Some(""))
    case Fraction => n.(fraction := Some(n.fraction.value + [b]))
    case AfterExponent => n.(exponent := Some(Exponent(b, "", "")))
    case AfterExponentSign => n.(exponent := Some(n.exponent.value.(sign := [b])))
    case ExponentDigits => n.(exponent := Some(n.exponent.value.(digits := n.exponent.value.digits + [b])))
  }

  lemma GrownNumberFits(n: NumberText, state: M.NumberState, b: Byte, state': M.NumberState)
    requires NumberFits(n, state) && M.NextNumber(state, b) == Some(state')
    ensures NumberFits(GrownNumber(n, b, state'), state')
  {
    var n' := GrownNumber(n, b, state');
    if state'.AfterExponent? {
      assert n'.(exponent := None) == n;
    } else if state'.AfterExponentSign? {
      assert n'.(exponent := None) == n.(exponent := None);
    }
  }

  function SignText(n: NumberText): string {
    if n.minus then "-" else ""
  }

  function FractionText(n: NumberText): string {
    if n.fraction.Some? then "." + n.fraction.value else ""
  }

  function ExponentText(n: NumberText): string {
    if n.exponent.Some? then [n.exponent.value.mark] + n.exponent.value.sign + n.exponent.value.digits else ""
  }

  /** Exactly one part of the number grows, and every part after it is empty. */
  lemma GrownNumberParts(n: NumberText, state: M.NumberState, b: Byte, state': M.NumberState)
    requires NumberFits(n, state) && M.NextNumber(state, b) == Some(state')
    ensures var n' := GrownNumber(n, b, state');
            SignText(n') == SignText(n) &&
            if state'.Zero? || state'.Integer? then
              n'.whole == n.whole + [b] && FractionText(n) == "" && ExponentText(n) == "" && FractionText(n') == ""
              && ExponentText(n') == ""
            else if state'.AfterDot? || state'.Fraction? then
              n'.whole == n.whole && FractionText(n') == FractionText(n) + [b] && ExponentText(n) == ""
              && ExponentText(n') == ""
            else
              n'.whole == n.whole && FractionText(n') == FractionText(n) && ExponentText(n') == ExponentText(n) + [b]
  {
    hide WellFormedNumber, WellFormedWhole, AllDigits;
  }

  lemma GrownNumberRenders(n: NumberText, state: M.NumberState, b: Byte, state': M.NumberState)
    requires NumberFits(n, state) && M.NextNumber(state, b) == Some(state')
    ensures RenderNumber(GrownNumber(n, b, state')) == RenderNumber(n) + [b]
  {
    var n' := GrownNumber(n, b, state');
    GrownNumberParts(n, state, b, state');
    assert RenderNumber(n) == SignText(n) + n.whole + FractionText(n) + ExponentText(n);
    assert RenderNumber(n') == SignText(n') + n'.whole + FractionText(n') + ExponentText(n');
    hide *;
    NumberPieces(SignText(n), n.whole, FractionText(n), ExponentText(n), b);
  }

  lemma NumberPieces(a: string, w: string, f: string, e: string, b: Byte)
    ensures a + (w + [b]) + "" + "" == a + w + "" + "" + [b]
    ensures a + w + (f + [b]) + "" == a + w + f + "" + [b]
    ensures a + w + f + (e + [b]) == a + w + f + e + [b]
  {
  }

  lemma GrowNumber(n: NumberText, state: M.NumberState, b: Byte, state': M.NumberState) returns (n': NumberText)
    requires NumberFits(n, state) && M.NextNumber(state, b) == Some(state')
    ensures NumberFits(n', state') && RenderNumber(n') == RenderNumber(n) + [b]
  {
    n' := GrownNumber(n, b, state');
    GrownNumberFits(n, state, b, state');
    GrownNumberRenders(n, state, b, state');
  }

  lemma FirstOfNumber(b: Byte, state: M.NumberState) returns (n: NumberText)
    requires M.StartNumber(b) == Some(state)
    ensures NumberFits(n, state) && RenderNumber(n) == [b]
  {
    n := if b == '-' then NumberText(true, "", None, None) else NumberText(false, [b], None, None);
  }

  lemma NumberIsWhole(n: NumberText, state: M.NumberState)
    requires NumberFits(n, state) && M.CanEnd(state)
    ensures WellFormedNumber(n)
  {
  }

  lemma SnocChar(chars: seq<StringChar>, ch: StringChar)
    requires WellFormedChars(chars) && WellFormedChar(ch)
    ensures WellFormedChars(chars + [ch]) && RenderChars(chars + [ch]) == RenderChars(chars) + RenderChar(ch)
  {
    assert (chars + [ch])[..|chars|] == chars;
  }

  /** The escape grows while it lasts. */
  lemma GrowEscape(pending: string, e: M.Escape, b: Byte, e': M.Escape)
    requires EscapeFits(pending, e) && M.NextEscape(e, b) == Some(e') && e' != M.Plain
    ensures EscapeFits(pending + [b], e')
  {
  }

  /** The character that a byte completes. */
  function CompletedChar(pending: string, e: M.Escape, b: Byte): StringChar
    requires EscapeFits(pending, e)
  {
    match e
    case Plain => Literal(b)
    case Backslash => Short(b)
    case UnicodeDigits(_, _) => Unicode(pending[2..] + [b])
  }

  lemma CompletesChar(pending: string, e: M.Escape, b: Byte)
    requires EscapeFits(pending, e) && M.NextEscape(e, b) == Some(M.Plain) && !M.ClosesString(e, b)
    ensures WellFormedChar(CompletedChar(pending, e, b))
    ensures RenderChar(CompletedChar(pending, e, b)) == pending + [b]
  {
    if e.UnicodeDigits? {
      assert pending == [BACKSLASH, 'u'] + pending[2..];
    }
  }

  lemma GrowString(chars: seq<StringChar>, pending: string, e: M.Escape, b: Byte, e': M.Escape)
    returns (chars': seq<StringChar>, pending': string)
    requires WellFormedChars(chars) && EscapeFits(pending, e)
    requires !M.ClosesString(e, b) && M.NextEscape(e, b) == Some(e')
    ensures WellFormedChars(chars') && EscapeFits(pending', e')
    ensures RenderChars(chars') + pending' == RenderChars(chars) + pending + [b]
  {
    hide RenderChars, RenderChar, WellFormedChar, WellFormedChars, M.NextEscape;
    if e' != M.Plain {
      GrowEscape(pending, e, b, e');
      chars', pending' := chars, pending + [b];
    } else {
      var ch := CompletedChar(pending, e, b);
      CompletesChar(pending, e, b);
      SnocChar(chars, ch);
      chars', pending' := chars + [ch], "";
    }
  }

  // ----- containers

  /** Whitespace between tokens. */
  lemma GrowSpace(p: Partial, f: M.Frame, b: Byte) returns (p': Partial)
    requires FrameFits(p, f) && IsWhitespace(b)
    ensures FrameFits(p', f) && RenderPartial(p') == RenderPartial(p) + [b]
    ensures IsObject(p') == IsObject(p)
  {
    match p
    case ObjStart(pad) => p' := ObjStart(pad + [b]);
    case ObjNextKey(members, pad) => p' := ObjNextKey(members, pad + [b]);
    case ObjColon(members, before, key, mid) => p' := ObjColon(members, before, key, mid + [b]);
    case ObjValue(members, before, key, mid, gap) => p' := ObjValue(members, before, key, mid, gap + [b]);
    case ObjNext(members) => p' := SpaceAfterMember(members, b);
    case ArrStart(pad) => p' := ArrStart(pad + [b]);
    case ArrNextValue(items, pad) => p' := ArrNextValue(items, pad + [b]);
    case ArrNext(items) => p' := SpaceAfterItem(items, b);
  }

  lemma {:induction false} SpaceAfterMember(members: seq<Member>, b: Byte) returns (p: Partial)
    requires WellFormedPartial(ObjNext(members)) && IsWhitespace(b)
    ensures p.ObjNext? && WellFormedPartial(p) && RenderPartial(p) == RenderPartial(ObjNext(members)) + [b]
  {
    var front, m := members[..|members| - 1], members[|members| - 1];
    var m' := m.(after := m.after + [b]);
    p := ObjNext(front + [m']);
    SpacedMember(front, m, b);
    assert front + [m] == members;
    hide WellFormedValue, RenderMember, RenderMembers, WellFormedChars;
    SnocMember(front, m);
    SnocMember(front, m');
    SpacePieces("{", RenderMembers(front), Separator(|front|), RenderMember(m), b);
  }

  lemma {:induction false} SpacedMember(front: seq<Member>, m: Member, b: Byte)
    ensures RenderMember(m.(after := m.after + [b])) == RenderMember(m) + [b]
  {
    hide Quoted, RenderValue;
  }

  lemma SpacePieces(open: string, front: string, sep: string, last: string, b: Byte)
    ensures open + (front + sep + (last + [b])) == open + (front + sep + last) + [b]
  {
    assert front + sep + (last + [b]) == front + sep + last + [b];
  }

  lemma {:induction false} SpaceAfterItem(items: seq<Item>, b: Byte) returns (p: Partial)
    requires WellFormedPartial(ArrNext(items)) && IsWhitespace(b)
    ensures p.ArrNext? && WellFormedPartial(p) && RenderPartial(p) == RenderPartial(ArrNext(items)) + [b]
  {
    var front, item := items[..|items| - 1], items[|items| - 1];
    var item' := item.(after := item.after + [b]);
    p := ArrNext(front + [item']);
    assert front + [item] == items;
    assert RenderItem(item') == RenderItem(item) + [b];
    hide WellFormedValue, RenderItem, RenderItems;
    SnocItem(front, item);
    SnocItem(front, item');
    SpacePieces("[", RenderItems(front), Separator(|front|), RenderItem(item), b);
  }

  /** The value a container is once it closes. */
  function ClosedValue(p: Partial): Value
    requires p.ObjStart? || p.ObjNext? || p.ArrStart? || p.ArrNext?
  {
    match p
    case ObjStart(pad) => Obj([], pad)
    case ObjNext(members) => Obj(members, "")
    case ArrStart(pad) => Arr([], pad)
    case ArrNext(items) => Arr(items, "")
  }

  lemma ClosedRenders(p: Partial)
    requires WellFormedPartial(p) && (p.ObjStart? || p.ObjNext? || p.ArrStart? || p.ArrNext?)
    ensures WellFormedValue(ClosedValue(p))
    ensures RenderValue(ClosedValue(p)) == RenderPartial(p) + [if IsObject(p) then '}' else ']']
  {
  }

  // ----- one step

  /** x' is x with one more byte, and agrees with the control state c'. */
  predicate Grows(x: Prefix, b: Byte, x': Prefix, c': M.Control) {
    RenderPrefix(x') == RenderPrefix(x) + [b] && Fits(x', c')
  }

  /** Only the innermost container and the token changed. */
  lemma InnerGrows(x: Prefix, inner': Partial, token': Token, b: Byte)
    requires x.Inside?
    requires RenderPartial(inner') + RenderToken(token') == RenderPartial(x.inner) + RenderToken(x.token) + [b]
    ensures RenderPrefix(x.(inner := inner', token := token')) == RenderPrefix(x) + [b]
  {
    var x' := x.(inner := inner', token := token');
    var p, t, p', t' := RenderPartial(x.inner), RenderToken(x.token), RenderPartial(inner'), RenderToken(token');
    var front := x.lead + RenderOuter(x.outer);
    assert RenderPrefix(x) == front + p + t && RenderPrefix(x') == front + p' + t';
    hide *;
    InnerPieces(front, p, t, p', t', b);
  }

  lemma InnerPieces(front: string, p: string, t: string, p': string, t': string, b: Byte)
    requires p' + t' == p + t + [b]
    ensures front + p' + t' == front + p + t + [b]
  {
    assert front + p' + t' == front + (p' + t');
    assert front + p + t + [b] == front + (p + t + [b]);
  }

  lemma HeadIsObject(outer: seq<Partial>, inner: Partial, inner': Partial)
    requires IsObject((outer + [inner])[0]) && IsObject(inner') == IsObject(inner)
    ensures IsObject((outer + [inner'])[0])
  {
  }

  /** A whole value goes into the innermost container. */
  lemma ReadsValue(x: Prefix, c: M.Control, v: Value) returns (x': Prefix)
    requires c.Open? && Fits(x, c) && ExpectsValue(x.inner) && WellFormedValue(v)
    ensures Fits(x', M.FinishValue(c.below, c.top))
    ensures RenderPrefix(x') == x.lead + RenderOuter(x.outer) + (RenderPartial(x.inner) + RenderValue(v)) + ""
  {
    var inner' := ReadInto(x.inner, v);
    x' := x.(inner := inner', token := NoToken);
    ReadIntoWellFormed(x.inner, v);
    ReadIntoRenders(x.inner, v);
    HeadIsObject(x.outer, x.inner, inner');
    hide RenderPartial, WellFormedPartial, WellFormedValue, RenderValue, ReadInto, RenderOuter;
  }

  /** The value is read with its last byte. */
  lemma ValueGrows(x: Prefix, c: M.Control, v: Value, b: Byte) returns (x': Prefix)
    requires c.Open? && Fits(x, c) && ExpectsValue(x.inner)
    requires WellFormedValue(v) && RenderValue(v) == RenderToken(x.token) + [b]
    ensures Grows(x, b, x', M.FinishValue(c.below, c.top))
  {
    x' := ReadsValue(x, c, v);
    var front, p, t := x.lead + RenderOuter(x.outer), RenderPartial(x.inner), RenderToken(x.token);
    assert RenderPrefix(x) == front + p + t;
    hide RenderPrefix, Fits, M.FinishValue, RenderPartial, RenderOuter, RenderToken, RenderValue;
    ValuePieces(front, p, t, b);
  }

  lemma ValuePieces(front: string, p: string, t: string, b: Byte)
    ensures front + (p + (t + [b])) + "" == front + p + t + [b]
  {
    assert p + (t + [b]) == p + t + [b];
  }

  /** A number that ends without its own closing byte. */
  lemma NumberSettles(x: Prefix, c: M.Control) returns (x': Prefix)
    requires c.Open? && Fits(x, c) && c.lexeme.Number? && M.CanEnd(c.lexeme.state)
    ensures RenderPrefix(x') == RenderPrefix(x) && Fits(x', M.FinishValue(c.below, c.top))
  {
    NumberIsWhole(x.token.number, c.lexeme.state);
    x' := ReadsValue(x, c, Num(x.token.number));
    SettlePieces(x.lead + RenderOuter(x.outer), RenderPartial(x.inner), RenderNumber(x.token.number));
  }

  lemma SettlePieces(front: string, p: string, v: string)
    ensures front + (p + v) + "" == front + p + v
  {
  }

  predicate CanClose(p: Partial, b: Byte) {
    (p.ObjStart? || p.ObjNext? || p.ArrStart? || p.ArrNext?) && b == if IsObject(p) then '}' else ']'
  }

  /** The innermost container closes. */
  lemma CloseGrows(x: Prefix, c: M.Control, b: Byte) returns (x': Prefix)
    requires c.Open? && Fits(x, c) && c.lexeme == M.Between && CanClose(x.inner, b)
    ensures Grows(x, b, x', M.AfterValue(c.below))
  {
    if x.outer == [] {
      var v := ClosedValue(x.inner);
      ClosedRenders(x.inner);
      x' := After(Document(x.lead, v.members, v.pad, ""));
      RecordPieces(x.lead, RenderPartial(x.inner), b);
    } else {
      x' := CloseNested(x, c, b);
    }
  }

  lemma CloseNested(x: Prefix, c: M.Control, b: Byte) returns (x': Prefix)
    requires c.Open? && Fits(x, c) && c.lexeme == M.Between && CanClose(x.inner, b) && x.outer != []
    ensures Grows(x, b, x', M.AfterValue(c.below))
  {
    hide WellFormedValue, RenderValue, WellFormedPartial, RenderPartial, ReadInto, ClosedValue, WellFormedDocument;
    var v := ClosedValue(x.inner);
    ClosedRenders(x.inner);
    var last := |x.outer| - 1;
    var front, p := x.outer[..last], x.outer[last];
    x' := Inside(x.lead, front, ReadInto(p, v), NoToken);
    ReadIntoWellFormed(p, v);
    ReadIntoRenders(p, v);
    ClosePieces(x.lead, RenderOuter(front), RenderPartial(p), RenderPartial(x.inner), b);
    assert front + [p] == x.outer;
    assert (x.outer + [x.inner])[0] == x.outer[0];
    HeadIsObject(front, p, ReadInto(p, v));
  }

  lemma RecordPieces(lead: string, p: string, b: Byte)
    ensures lead + (p + [b]) + "" == lead + "" + p + "" + [b]
  {
  }

  lemma ClosePieces(lead: string, front: string, p: string, inner: string, b: Byte)
    ensures lead + front + (p + (inner + [b])) + "" == lead + (front + p) + inner + "" + [b]
  {
    assert lead + (front + p) == lead + front + p;
  }

  /** A container opens inside the innermost one. */
  lemma OpenGrows(x: Prefix, c: M.Control, b: Byte) returns (x': Prefix)
    requires c.Open? && Fits(x, c) && c.lexeme == M.Between && ExpectsValue(x.inner)
    requires b == '{' || b == '['
    ensures Grows(x, b, x', M.StartValue(c.below, c.top, b))
  {
    var start := if b == '{' then ObjStart("") else ArrStart("");
    var outer' := x.outer + [x.inner];
    x' := Inside(x.lead, outer', start, NoToken);
    assert outer'[..|x.outer|] == x.outer;
    OpenPieces(x.lead, RenderOuter(x.outer), RenderPartial(x.inner), b);
  }

  lemma OpenPieces(lead: string, outer: string, inner: string, b: Byte)
    ensures lead + (outer + inner) + ([b] + "") + "" == lead + outer + inner + "" + [b]
  {
  }

  /** The first byte of a value. */
  lemma StartGrows(x: Prefix, c: M.Control, b: Byte) returns (x': Prefix)
    requires c.Open? && Fits(x, c) && c.lexeme == M.Between && ExpectsValue(x.inner)
    requires M.StartValue(c.below, c.top, b) != M.Broken
    ensures Grows(x, b, x', M.StartValue(c.below, c.top, b))
  {
    hide WellFormedPartial, RenderPartial;
    if b == '{' || b == '[' {
      x' := OpenGrows(x, c, b);
    } else {
      var token := FirstToken(c, b, x.inner);
      x' := x.(token := token);
      assert RenderPartial(x.inner) + [b] == RenderPartial(x.inner) + "" + [b];
      InnerGrows(x, x.inner, token, b);
    }
  }

  lemma FirstToken(c: M.Control, b: Byte, inner: Partial) returns (token: Token)
    requires c.Open? && ExpectsValue(inner) && b != '{' && b != '['
    requires M.StartValue(c.below, c.top, b) != M.Broken
    ensures RenderToken(token) == [b]
    ensures var c' := M.StartValue(c.below, c.top, b);
            c' == M.Open(c.below, c.top, c'.lexeme) && TokenFits(token, inner, c'.lexeme)
  {
    if b == QUOTE {
      token := TextToken([], "");
    } else if b == 't' {
      token := WordToken("t", "rue");
    } else if b == 'f' {
      token := WordToken("f", "alse");
    } else if b == 'n' {
      token := WordToken("n", "ull");
    } else {
      var n := FirstOfNumber(b, M.StartNumber(b).value);
      token := NumToken(n);
    }
  }

  /** The container after its colon or comma. */
  function Moved(p: Partial): Partial {
    match p
    case ObjColon(members, before, key, mid) => ObjValue(members, before, key, mid, "")
    case ObjNext(members) => ObjNextKey(members, "")
    case ArrNext(items) => ArrNextValue(items, "")
    case _ => p
  }

  lemma MovedFits(p: Partial, f: M.Frame, b: Byte)
    requires FrameFits(p, f) && ((b == ':' && p.ObjColon?) || (b == ',' && (p.ObjNext? || p.ArrNext?)))
    ensures FrameFits(Moved(p), f.(phase := PhaseOf(Moved(p)))) && IsObject(Moved(p)) == IsObject(p)
    ensures RenderPartial(Moved(p)) == RenderPartial(p) + [b]
  {
    hide RenderItems, RenderMembers, Quoted, WellFormedMembers, WellFormedItems;
  }

  /** A structural byte that only moves the innermost container on. */
  lemma MoveGrows(x: Prefix, c: M.Control, b: Byte) returns (x': Prefix)
    requires c.Open? && Fits(x, c) && c.lexeme == M.Between && !IsWhitespace(b)
    requires (b == ':' && x.inner.ObjColon?) || (b == ',' && (x.inner.ObjNext? || x.inner.ArrNext?))
    ensures Grows(x, b, x', M.StepBetween(c.below, c.top, b))
  {
    var inner' := Moved(x.inner);
    x' := x.(inner := inner');
    MovedFits(x.inner, c.top, b);
    MovedControl(c.below, c.top, b, x.inner);
    HeadIsObject(x.outer, x.inner, inner');
    NoTokenPieces(RenderPartial(x.inner), b);
    hide RenderPrefix, RenderPartial, WellFormedPartial, M.StepBetween;
    InnerGrows(x, inner', NoToken, b);
  }

  lemma MovedControl(below: seq<M.Frame>, top: M.Frame, b: Byte, p: Partial)
    requires FrameFits(p, top) && ((b == ':' && p.ObjColon?) || (b == ',' && (p.ObjNext? || p.ArrNext?)))
    ensures M.StepBetween(below, top, b) == M.Open(below, top.(phase := PhaseOf(Moved(p))), M.Between)
  {
    hide WellFormedPartial, M.StartValue, M.Close;
  }

  lemma NoTokenPieces(p: string, b: Byte)
    ensures (p + [b]) + "" == p + "" + [b]
  {
  }

  lemma SpaceGrows(x: Prefix, c: M.Control, b: Byte) returns (x': Prefix)
    requires c.Open? && Fits(x, c) && c.lexeme == M.Between && IsWhitespace(b)
    ensures Grows(x, b, x', c)
  {
    var inner' := GrowSpace(x.inner, c.top, b);
    x' := x.(inner := inner');
    HeadIsObject(x.outer, x.inner, inner');
    NoTokenPieces(RenderPartial(x.inner), b);
    InnerGrows(x, inner', NoToken, b);
  }

  lemma KeyOpens(x: Prefix, c: M.Control) returns (x': Prefix)
    requires c.Open? && Fits(x, c) && c.lexeme == M.Between && (x.inner.ObjStart? || x.inner.ObjNextKey?)
    ensures Grows(x, QUOTE, x', M.StartKey(c.below, c.top))
  {
    x' := x.(token := KeyToken([], ""));
    assert RenderPartial(x.inner) + RenderToken(x'.token) == RenderPartial(x.inner) + "" + [QUOTE];
    InnerGrows(x, x.inner, x'.token, QUOTE);
  }

  /** A byte between tokens. */
  lemma BetweenGrows(x: Prefix, c: M.Control, b: Byte) returns (x': Prefix)
    requires c.Open? && Fits(x, c) && c.lexeme == M.Between
    requires M.StepBetween(c.below, c.top, b) != M.Broken
    ensures Grows(x, b, x', M.StepBetween(c.below, c.top, b))
  {
    hide Grows, RenderPrefix, OuterFits;
    if IsWhitespace(b) {
      x' := SpaceGrows(x, c, b);
    } else {
      match x.inner
      case ObjStart(_) => if b == '}' { x' := CloseGrows(x, c, b); } else { x' := KeyOpens(x, c); }
      case ObjNextKey(_, _) => x' := KeyOpens(x, c);
      case ObjColon(_, _, _, _) => x' := MoveGrows(x, c, b);
      case ObjValue(_, _, _, _, _) => x' := StartGrows(x, c, b);
      case ObjNext(_) => if b == '}' { x' := CloseGrows(x, c, b); } else { x' := MoveGrows(x, c, b); }
      case ArrStart(_) => if b == ']' { x' := CloseGrows(x, c, b); } else { x' := StartGrows(x, c, b); }
      case ArrNextValue(_, _) => x' := StartGrows(x, c, b);
      case ArrNext(_) => if b == ']' { x' := CloseGrows(x, c, b); } else { x' := MoveGrows(x, c, b); }
    }
  }

  /** The closing quote of a key. */
  lemma KeyCloses(x: Prefix, c: M.Control, isCwd: bool) returns (x': Prefix)
    requires c.Open? && Fits(x, c) && c.lexeme.KeyString? && c.lexeme.escape == M.Plain
    ensures Grows(x, QUOTE, x', M.Open(c.below, c.top.(phase := M.ObjectColon, keyIsCwd := isCwd), M.Between))
  {
    var members, before := match x.inner case ObjStart(pad) => [] case ObjNextKey(members, _) => members case _ => [],
                           x.inner.pad;
    var inner' := ObjColon(members, before, x.token.chars, "");
    x' := x.(inner := inner', token := NoToken);
    KeyPieces(RenderMembers(members), Separator(|members|), before, RenderChars(x.token.chars));
    assert x.inner.ObjStart? ==> "{" + RenderMembers(members) + Separator(|members|) + before == "{" + before;
    HeadIsObject(x.outer, x.inner, inner');
    InnerGrows(x, inner', NoToken, QUOTE);
  }

  lemma KeyPieces(members: string, sep: string, before: string, key: string)
    ensures "{" + members + sep + before + ([QUOTE] + key + [QUOTE]) + "" + ""
            == "{" + members + sep + before + ([QUOTE] + key + "") + [QUOTE]
  {
    var front := "{" + members + sep + before;
    assert front + ([QUOTE] + key + [QUOTE]) == front + ([QUOTE] + key + "") + [QUOTE];
  }

  /** A byte inside a string. */
  lemma StringGrows(x: Prefix, c: M.Control, b: Byte, e: M.Escape, e': M.Escape, l': M.Lexeme) returns (x': Prefix)
    requires c.Open? && Fits(x, c) && !M.ClosesString(e, b) && M.NextEscape(e, b) == Some(e')
    requires (c.lexeme.KeyString? && l'.KeyString?) || (c.lexeme.TextString? && l'.TextString?)
    requires c.lexeme.escape == e && l'.escape == e'
    ensures Grows(x, b, x', M.Open(c.below, c.top, l'))
  {
    var chars', pending' := GrowString(x.token.chars, x.token.pending, e, b, e');
    var token' := if c.lexeme.KeyString? then KeyToken(chars', pending') else TextToken(chars', pending');
    x' := x.(token := token');
    StringPieces(RenderPartial(x.inner), RenderChars(x.token.chars), x.token.pending, RenderChars(chars'), pending', b);
    InnerGrows(x, x.inner, token', b);
  }

  lemma StringPieces(p: string, r: string, pending: string, r': string, pending': string, b: Byte)
    requires r' + pending' == r + pending + [b]
    ensures p + ([QUOTE] + r' + pending') == p + ([QUOTE] + r + pending) + [b]
  {
    assert [QUOTE] + r' + pending' == [QUOTE] + (r' + pending');
    assert [QUOTE] + r + pending + [b] == [QUOTE] + (r + pending + [b]);
  }

  lemma WordGrows(x: Prefix, c: M.Control, b: Byte) returns (x': Prefix)
    requires c.Open? && Fits(x, c) && c.lexeme.WordRest? && c.lexeme.rest != "" && c.lexeme.rest[0] == b
    ensures Grows(x, b, x', if |c.lexeme.rest| == 1 then M.FinishValue(c.below, c.top)
                            else M.Open(c.below, c.top, M.WordRest(c.lexeme.rest[1..])))
  {
    hide WellFormedPartial, RenderPartial;
    var t := x.token;
    assert t.done + t.rest == t.done + [b] + t.rest[1..];
    if |t.rest| == 1 {
      assert t.done + t.rest == t.done + [b];
      x' := ValueGrows(x, c, Word(t.done + [b]), b);
    } else {
      var token' := WordToken(t.done + [b], t.rest[1..]);
      x' := x.(token := token');
      assert RenderPartial(x.inner) + (t.done + [b]) == RenderPartial(x.inner) + t.done + [b];
      InnerGrows(x, x.inner, token', b);
    }
  }

  lemma NumberGrows(x: Prefix, c: M.Control, b: Byte, state': M.NumberState) returns (x': Prefix)
    requires c.Open? && Fits(x, c) && c.lexeme.Number? && M.NextNumber(c.lexeme.state, b) == Some(state')
    ensures Grows(x, b, x', M.Open(c.below, c.top, M.Number(state')))
  {
    hide WellFormedPartial, RenderPartial;
    var n' := GrowNumber(x.token.number, c.lexeme.state, b, state');
    x' := x.(token := NumToken(n'));
    assert RenderPartial(x.inner) + (RenderNumber(x.token.number) + [b]) ==
      RenderPartial(x.inner) + RenderNumber(x.token.number) + [b];
    InnerGrows(x, x.inner, NumToken(n'), b);
  }

  lemma TextCloses(x: Prefix, c: M.Control) returns (x': Prefix)
    requires c.Open? && Fits(x, c) && c.lexeme.TextString? && c.lexeme.escape == M.Plain
    ensures Grows(x, QUOTE, x', M.FinishValue(c.below, c.top))
  {
    hide WellFormedPartial, RenderPartial;
    var chars := x.token.chars;
    assert Quoted(chars) == [QUOTE] + RenderChars(chars) + "" + [QUOTE];
    x' := ValueGrows(x, c, Str(chars), QUOTE);
  }

  /** Any byte the machine takes inside the record can be taken by the tree. */
  lemma OpenStepGrows(decode: M.Decoder, s: M.Scan, x: Prefix, b: Byte) returns (x': Prefix)
    requires s.control.Open? && Fits(x, s.control)
    requires M.StepOpen(decode, s, b).scan.control != M.Broken
    ensures Grows(x, b, x', M.StepOpen(decode, s, b).scan.control)
  {
    hide Grows, Fits, M.StepBetween, M.FinishValue, M.NextEscape, M.NextNumber, M.StartValue, M.Retain, M.CompareKey,
         M.CanEnd;
    var c := s.control;
    match c.lexeme
    case Between => x' := BetweenGrows(x, c, b);
    case KeyString(e, _, _) =>
      if M.ClosesString(e, b) {
        x' := KeyCloses(x, c, M.StepKey(s, b).control.top.keyIsCwd);
      } else {
        x' := StringGrows(x, c, b, e, M.NextEscape(e, b).value, M.StepKey(s, b).control.lexeme);
      }
    case TextString(_, e, _, _) =>
      if M.ClosesString(e, b) {
        x' := TextCloses(x, c);
      } else {
        x' := StringGrows(x, c, b, e, M.NextEscape(e, b).value, M.StepText(decode, s, b).scan.control.lexeme);
      }
    case WordRest(_) => x' := WordGrows(x, c, b);
    case Number(state) =>
      if M.NextNumber(state, b).Some? {
        x' := NumberGrows(x, c, b, M.NextNumber(state, b).value);
      } else {
        x' := NumberEndGrows(x, c, b);
      }
  }

  /** A byte that ends a number and is then read on its own. */
  lemma NumberEndGrows(x: Prefix, c: M.Control, b: Byte) returns (x': Prefix)
    requires c.Open? && Fits(x, c) && c.lexeme.Number?
    requires M.EndNumber(c.below, c.top, c.lexeme.state, b) != M.Broken
    ensures Grows(x, b, x', M.EndNumber(c.below, c.top, c.lexeme.state, b))
  {
    hide WellFormedPartial, RenderPartial, RenderPrefix, M.StepBetween;
    var x1 := NumberSettles(x, c);
    x' := BetweenGrows(x1, M.FinishValue(c.below, c.top), b);
  }

  lemma StepGrows(decode: M.Decoder, s: M.Scan, x: Prefix, b: Byte) returns (x': Prefix)
    requires Fits(x, s.control) && M.Step(decode, s, b).scan.control != M.Broken
    ensures Grows(x, b, x', M.Step(decode, s, b).scan.control)
  {
    hide M.StepOpen;
    match s.control
    case Open(_, _, _) => x' := OpenStepGrows(decode, s.(content := s.content || !IsWhitespace(b)), x, b);
    case Complete =>
      x' := After(x.document.(trail := x.document.trail + [b]));
      var d := x.document;
      var body := d.lead + RenderValue(Obj(d.members, d.pad));
      assert body + (d.trail + [b]) == body + d.trail + [b];
    case Fresh =>
      if b == '{' {
        x' := Inside(x.lead, [], ObjStart(""), NoToken);
        assert x.lead + "" + ("{" + "") + "" == x.lead + [b];
      } else {
        x' := Before(x.lead + [b]);
      }
    case Broken => assert false; x' := x;
  }

  /** As long as the machine is not broken, the bytes read so far are a partial tree that fits its state. */
  lemma {:induction false} RunGrows(decode: M.Decoder, text: string) returns (x: Prefix)
    requires M.Run(decode, M.START, text).scan.control != M.Broken
    ensures Fits(x, M.Run(decode, M.START, text).scan.control) && RenderPrefix(x) == text
  {
    hide M.Step, RenderPrefix, Fits;
    if text == "" {
      x := NothingYet();
    } else {
      var front, b := text[..|text| - 1], text[|text| - 1];
      var s := M.Run(decode, M.START, front).scan;
      StaysBroken(decode, s, b);
      var x1 := RunGrows(decode, front);
      x := StepGrows(decode, s, x1, b);
      assert front + [b] == text;
    }
  }

  lemma NothingYet() returns (x: Prefix)
    ensures Fits(x, M.START.control) && RenderPrefix(x) == ""
  {
    x := Before("");
  }

  lemma StaysBroken(decode: M.Decoder, s: M.Scan, b: Byte)
    ensures s.control == M.Broken ==> M.Step(decode, s, b).scan.control == M.Broken
  {
  }

  /** Every text the machine accepts is whitespace, one JSON object, whitespace. */
  lemma AcceptedIsRecord(decode: M.Decoder, text: string)
    requires M.Run(decode, M.START, text).scan.control == M.Complete
    ensures IsRecord(text)
  {
    var x := RunGrows(decode, text);
    assert RenderDocument(x.document) == text;
  }
}
