/** The incremental recogniser as a deterministic pushdown machine: one state value, one step per byte.
    CwdExtractor implements it with flags and counters; the grammar theorems are about this machine. */
module CwdMachine {
  import opened Wrappers
  import opened JsonBytes

  const MAX_CWD_BYTES: nat := 64 * 1024

  /** Unquotes, unescapes and cleans a quoted string; "" when it is no absolute path. */
  type Decoder = string -> string

  datatype Phase =
    | ObjectKeyOrEnd | ObjectKey | ObjectColon | ObjectValue | ObjectCommaOrEnd
    | ArrayValueOrEnd | ArrayValue | ArrayCommaOrEnd

  /** An open container: its opening byte, what it expects next, and whether the key just read is cwd. */
  datatype Frame = Frame(kind: Byte, phase: Phase, keyIsCwd: bool)

  datatype Escape = Plain | Backslash | UnicodeDigits(digits: nat, value: nat)

  datatype NumberState =
    | AfterMinus | Zero | Integer | AfterDot | Fraction | AfterExponent | AfterExponentSign | ExponentDigits

  /** The token being read. */
  datatype Lexeme =
    | Between
    | KeyString(escape: Escape, matched: bool, length: nat)
    | TextString(isCwd: bool, escape: Escape, raw: string, tooLong: bool)
    | WordRest(rest: string)
    | Number(state: NumberState)

  datatype Control =
    | Fresh
    | Open(below: seq<Frame>, top: Frame, lexeme: Lexeme)
    | Complete
    | Broken

  /** seen: a top-level cwd key was read; ambiguous: a second one; content: some byte was not whitespace. */
  datatype Scan = Scan(control: Control, seen: bool, ambiguous: bool, content: bool)

  /** The state after some bytes, and the first usable cwd among them ("" when none). */
  datatype Outcome = Outcome(scan: Scan, cwd: string)

  const START := Scan(Fresh, false, false, false)

  function First(a: string, b: string): string {
    if a != "" then a else b
  }

  // ----- containers

  function FinishValue(below: seq<Frame>, top: Frame): Control {
    match top.phase
    case ObjectValue => Open(below, top.(phase := ObjectCommaOrEnd, keyIsCwd := false), Between)
    case ArrayValueOrEnd => Open(below, top.(phase := ArrayCommaOrEnd), Between)
    case ArrayValue => Open(below, top.(phase := ArrayCommaOrEnd), Between)
    case _ => Broken
  }

  /** What reading a whole value does to the containers around it. */
  function AfterValue(containers: seq<Frame>): Control {
    if containers == [] then Complete
    else FinishValue(containers[..|containers| - 1], containers[|containers| - 1])
  }

  /** The closing byte ends the innermost container, which is then a value of the one around it. */
  function Close(below: seq<Frame>, top: Frame, closing: Byte): Control {
    if (closing == '}' && top.kind != '{') || (closing == ']' && top.kind != '[') then Broken
    else AfterValue(below)
  }

  function StartKey(below: seq<Frame>, top: Frame): Control {
    Open(below, top, KeyString(Plain, below == [], 0))
  }

  predicate HoldsCwd(below: seq<Frame>, top: Frame) {
    below == [] && top.kind == '{' && top.keyIsCwd
  }

  function StartValue(below: seq<Frame>, top: Frame, b: Byte): Control {
    if b == QUOTE then
      var isCwd := HoldsCwd(below, top);
      Open(below, top, TextString(isCwd, Plain, if isCwd then [QUOTE] else "", false))
    else if b == '{' then Open(below + [top], Frame('{', ObjectKeyOrEnd, false), Between)
    else if b == '[' then Open(below + [top], Frame('[', ArrayValueOrEnd, false), Between)
    else if b == 't' then Open(below, top, WordRest("rue"))
    else if b == 'f' then Open(below, top, WordRest("alse"))
    else if b == 'n' then Open(below, top, WordRest("ull"))
    else match StartNumber(b)
      case Some(n) => Open(below, top, Number(n))
      case None => Broken
  }

  /** A byte between tokens. */
  function StepBetween(below: seq<Frame>, top: Frame, b: Byte): Control {
    if IsWhitespace(b) then Open(below, top, Between)
    else match top.phase
      case ObjectKeyOrEnd =>
        if b == '}' then Close(below, top, b) else if b == QUOTE then StartKey(below, top) else Broken
      case ObjectKey =>
        if b == QUOTE then StartKey(below, top) else Broken
      case ObjectColon =>
        if b == ':' then Open(below, top.(phase := ObjectValue), Between) else Broken
      case ObjectValue => StartValue(below, top, b)
      case ArrayValueOrEnd =>
        if b == ']' then Close(below, top, b) else StartValue(below, top, b)
      case ArrayValue => StartValue(below, top, b)
      case ObjectCommaOrEnd =>
        if b == ',' then Open(below, top.(phase := ObjectKey), Between)
        else if b == '}' then Close(below, top, b) else Broken
      case ArrayCommaOrEnd =>
        if b == ',' then Open(below, top.(phase := ArrayValue), Between)
        else if b == ']' then Close(below, top, b) else Broken
  }

  // ----- numbers

  function StartNumber(b: Byte): Option<NumberState> {
    if b == '-' then Some(AfterMinus)
    else if b == '0' then Some(Zero)
    else if IsNonZeroDigit(b) then Some(Integer)
    else None
  }

  function NextNumber(n: NumberState, b: Byte): Option<NumberState> {
    match n
    case AfterMinus =>
      if b == '0' then Some(Zero) else if IsNonZeroDigit(b) then Some(Integer) else None
    case Zero =>
      if b == '.' then Some(AfterDot) else if b == 'e' || b == 'E' then Some(AfterExponent) else None
    case Integer =>
      if IsDigit(b) then Some(Integer)
      else if b == '.' then Some(AfterDot) else if b == 'e' || b == 'E' then Some(AfterExponent) else None
    case AfterDot => if IsDigit(b) then Some(Fraction) else None
    case Fraction =>
      if IsDigit(b) then Some(Fraction) else if b == 'e' || b == 'E' then Some(AfterExponent) else None
    case AfterExponent =>
      if b == '+' || b == '-' then Some(AfterExponentSign)
      else if IsDigit(b) then Some(ExponentDigits) else None
    case AfterExponentSign => if IsDigit(b) then Some(ExponentDigits) else None
    case ExponentDigits => if IsDigit(b) then Some(ExponentDigits) else None
  }

  predicate CanEnd(n: NumberState) {
    n == Zero || n == Integer || n == Fraction || n == ExponentDigits
  }

  // ----- strings

  /** The escape state after a byte that does not close the string; None when the byte is not allowed. */
  function NextEscape(e: Escape, b: Byte): Option<Escape> {
    match e
    case UnicodeDigits(digits, value) =>
      if !IsHexDigit(b) then None
      else if digits <= 1 then Some(Plain)
      else Some(UnicodeDigits(digits - 1, PushHex(value, b)))
    case Backslash =>
      if IsShortEscape(b) then Some(Plain) else if b == 'u' then Some(UnicodeDigits(4, 0)) else None
    case Plain =>
      if b == BACKSLASH then Some(Backslash) else if b < ' ' then None else Some(Plain)
  }

  /** Sixteen-bit shift of the escape's value. */
  function PushHex(value: nat, b: Byte): (v: nat)
    requires IsHexDigit(b)
  {
    (value * 16 + HexValue(b)) % 0x10000
  }

  predicate ClosesString(e: Escape, b: Byte) {
    e == Plain && b == QUOTE
  }

  /** Compares one decoded key character; the pair is (still equal, characters compared). */
  function MatchKey(matched: bool, length: nat, b: Byte): (bool, nat) {
    if !matched then (false, length)
    else (length < |KEY| && KEY[length] == b, length + 1)
  }

  /** How a byte inside a key changes the comparison. */
  function CompareKey(k: Lexeme, b: Byte): (bool, nat)
    requires k.KeyString?
  {
    match k.escape
    case UnicodeDigits(digits, value) =>
      if !IsHexDigit(b) || digits > 1 then (k.matched, k.length)
      else
        var v := PushHex(value, b);
        if v > 0x7f then (false, k.length) else MatchKey(k.matched, k.length, v as char)
    case Backslash => if b == 'u' then (k.matched, k.length) else (false, k.length)
    case Plain => if b == BACKSLASH then (k.matched, k.length) else MatchKey(k.matched, k.length, b)
  }

  function StepKey(s: Scan, b: Byte): Scan
    requires s.control.Open? && s.control.lexeme.KeyString?
  {
    var Open(below, top, k) := s.control;
    if ClosesString(k.escape, b) then
      var isCwd := k.matched && k.length == |KEY|;
      if isCwd && s.seen then s.(control := Broken, ambiguous := true)
      else s.(control := Open(below, top.(phase := ObjectColon, keyIsCwd := isCwd), Between), seen := s.seen || isCwd)
    else match NextEscape(k.escape, b)
      case None => s.(control := Broken)
      case Some(e) =>
        var (matched, length) := CompareKey(k, b);
        s.(control := Open(below, top, KeyString(e, matched, length)))
  }

  /** The bytes kept of a cwd value: all of them up to the limit, then none. */
  function Retain(t: Lexeme, b: Byte): (string, bool)
    requires t.TextString?
  {
    if !t.isCwd || t.tooLong then (t.raw, t.tooLong)
    else if |t.raw| + 1 > MAX_CWD_BYTES then ("", true)
    else (t.raw + [b], false)
  }

  function StepText(decode: Decoder, s: Scan, b: Byte): Outcome
    requires s.control.Open? && s.control.lexeme.TextString?
  {
    var Open(below, top, t) := s.control;
    var (raw, tooLong) := Retain(t, b);
    if ClosesString(t.escape, b) then
      Outcome(s.(control := FinishValue(below, top)), if t.isCwd && !tooLong then decode(raw) else "")
    else match NextEscape(t.escape, b)
      case None => Outcome(s.(control := Broken), "")
      case Some(e) => Outcome(s.(control := Open(below, top, TextString(t.isCwd, e, raw, tooLong))), "")
  }

  // ----- one byte

  function StepOpen(decode: Decoder, s: Scan, b: Byte): Outcome
    requires s.control.Open?
  {
    var Open(below, top, lexeme) := s.control;
    match lexeme
    case Between => Outcome(s.(control := StepBetween(below, top, b)), "")
    case KeyString(_, _, _) => Outcome(StepKey(s, b), "")
    case TextString(_, _, _, _) => StepText(decode, s, b)
    case WordRest(rest) =>
      if rest == "" || b != rest[0] then Outcome(s.(control := Broken), "")
      else if |rest| == 1 then Outcome(s.(control := FinishValue(below, top)), "")
      else Outcome(s.(control := Open(below, top, WordRest(rest[1..]))), "")
    case Number(n) =>
      match NextNumber(n, b)
      case Some(n') => Outcome(s.(control := Open(below, top, Number(n'))), "")
      case None => Outcome(s.(control := EndNumber(below, top, n, b)), "")
  }

  /** The byte after a number ends it and is then read as the next token. */
  function EndNumber(below: seq<Frame>, top: Frame, n: NumberState, b: Byte): Control {
    if !CanEnd(n) || !IsDelimiter(b) then Broken
    else
      var after := FinishValue(below, top);
      if after.Open? then StepBetween(after.below, after.top, b) else after
  }

  function Step(decode: Decoder, s: Scan, b: Byte): Outcome {
    var s := s.(content := s.content || !IsWhitespace(b));
    match s.control
    case Broken => Outcome(s, "")
    case Open(_, _, _) => StepOpen(decode, s, b)
    case Complete => Outcome(if IsWhitespace(b) then s else s.(control := Broken), "")
    case Fresh =>
      if IsWhitespace(b) then Outcome(s, "")
      else if b == '{' then Outcome(s.(control := Open([], Frame('{', ObjectKeyOrEnd, false), Between)), "")
      else Outcome(s.(control := Broken), "")
  }

  function Run(decode: Decoder, s: Scan, data: string): Outcome {
    if data == "" then Outcome(s, "")
    else
      var before := Run(decode, s, data[..|data| - 1]);
      var last := Step(decode, before.scan, data[|data| - 1]);
      Outcome(last.scan, First(before.cwd, last.cwd))
  }

  /** However a record is cut into fragments, the machine ends in the same state with the same first cwd. */
  lemma {:induction false} RunConcat(decode: Decoder, s: Scan, a: string, b: string)
    ensures Run(decode, s, a + b)
            == var first := Run(decode, s, a);
               var second := Run(decode, first.scan, b);
               Outcome(second.scan, First(first.cwd, second.cwd))
    decreases |b|
  {
    if b == "" {
      assert a + b == a;
    } else {
      var front := b[..|b| - 1];
      assert (a + b)[..|a + b| - 1] == a + front;
      RunConcat(decode, s, a, front);
    }
  }

  lemma RunSnoc(decode: Decoder, s: Scan, a: string, b: Byte)
    ensures Run(decode, s, a + [b])
            == var first := Run(decode, s, a);
               var second := Step(decode, first.scan, b);
               Outcome(second.scan, First(first.cwd, second.cwd))
  {
    assert (a + [b])[..|a + [b]| - 1] == a;
  }

  /** Whether a record whose bytes led to s is unreadable evidence. */
  predicate Unverifiable(s: Scan, cwdFound: bool) {
    s.content && (s.control == Broken || s.control != Complete || (s.seen && !cwdFound))
  }
}
