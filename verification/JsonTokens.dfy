/** What the machine does on one whole token of the grammar: a number, a word, a key, a text string. */
module JsonTokens {
  import opened Wrappers
  import opened JsonBytes
  import opened JsonGrammar
  import M = CwdMachine

  /** The state with the given token under way, some content read. */
  function At(s: M.Scan, below: seq<M.Frame>, top: M.Frame, l: M.Lexeme): M.Scan {
    s.(control := M.Open(below, top, l), content := true)
  }

  lemma RunJoin(decode: M.Decoder, s: M.Scan, a: string, s1: M.Scan, b: string, last: M.Outcome)
    requires M.Run(decode, s, a) == M.Outcome(s1, "")
    requires M.Run(decode, s1, b) == last
    ensures M.Run(decode, s, a + b) == last
  {
    M.RunConcat(decode, s, a, b);
  }

  lemma RunOne(decode: M.Decoder, s: M.Scan, b: Byte)
    ensures M.Run(decode, s, [b]) == M.Step(decode, s, b)
  {
    assert [b][..0] == "";
    assert M.Run(decode, s, "") == M.Outcome(s, "");
  }

  lemma RunNothing(decode: M.Decoder, s: M.Scan)
    ensures M.Run(decode, s, "") == M.Outcome(s, "")
  {
  }

  predicate AwaitsValue(p: M.Phase) {
    p == M.ObjectValue || p == M.ArrayValueOrEnd || p == M.ArrayValue
  }

  lemma FirstOfValue(decode: M.Decoder, s: M.Scan, below: seq<M.Frame>, top: M.Frame, b: Byte)
    requires s.control == M.Open(below, top, M.Between) && AwaitsValue(top.phase)
    requires !IsWhitespace(b) && b != ']'
    ensures M.Run(decode, s, [b]) == M.Outcome(s.(control := M.StartValue(below, top, b), content := true), "")
  {
    RunOne(decode, s, b);
    hide M.StartValue;
  }

  // ----- numbers

  lemma FirstOfNumber(decode: M.Decoder, s: M.Scan, below: seq<M.Frame>, top: M.Frame, b: Byte, n: M.NumberState)
    requires s.control == M.Open(below, top, M.Between) && AwaitsValue(top.phase)
    requires M.StartNumber(b) == Some(n)
    ensures M.Run(decode, s, [b]) == M.Outcome(At(s, below, top, M.Number(n)), "")
  {
    hide M.Run, M.Step;
    FirstOfValue(decode, s, below, top, b);
  }

  lemma NextOfNumber(decode: M.Decoder, s: M.Scan, below: seq<M.Frame>, top: M.Frame, n: M.NumberState, b: Byte,
                     n': M.NumberState)
    requires s == At(s, below, top, M.Number(n)) && M.NextNumber(n, b) == Some(n')
    ensures M.Run(decode, s, [b]) == M.Outcome(At(s, below, top, M.Number(n')), "")
  {
    RunOne(decode, s, b);
  }

  /** The number states in which any number of digits may follow. */
  predicate TakesDigits(n: M.NumberState) {
    n == M.Integer || n == M.Fraction || n == M.ExponentDigits
  }

  lemma {:induction false} RunDigits(decode: M.Decoder, s: M.Scan, below: seq<M.Frame>, top: M.Frame,
                                     n: M.NumberState, digits: string)
    requires s == At(s, below, top, M.Number(n)) && TakesDigits(n) && AllDigits(digits)
    ensures M.Run(decode, s, digits) == M.Outcome(s, "")
  {
    if digits != "" {
      RunDigits(decode, s, below, top, n, digits[..|digits| - 1]);
    }
  }

  /** A first digit that moves the number to a state taking digits, then the other digits. */
  lemma RunDigitsFrom(decode: M.Decoder, s: M.Scan, below: seq<M.Frame>, top: M.Frame, n: M.NumberState,
                      n': M.NumberState, digits: string)
    requires s == At(s, below, top, M.Number(n)) && AllDigits(digits) && digits != ""
    requires M.NextNumber(n, digits[0]) == Some(n') && TakesDigits(n')
    ensures M.Run(decode, s, digits) == M.Outcome(At(s, below, top, M.Number(n')), "")
  {
    var s1 := At(s, below, top, M.Number(n'));
    RunOne(decode, s, digits[0]);
    RunDigits(decode, s1, below, top, n', digits[1..]);
    assert [digits[0]] + digits[1..] == digits;
    RunJoin(decode, s, [digits[0]], s1, digits[1..], M.Outcome(s1, ""));
  }

  function WholeState(n: NumberText): M.NumberState {
    if n.whole == "0" then M.Zero else M.Integer
  }

  function FractionState(n: NumberText): M.NumberState {
    if n.fraction.Some? then M.Fraction else WholeState(n)
  }

  function NumberEnd(n: NumberText): (e: M.NumberState)
    ensures M.CanEnd(e)
  {
    if n.exponent.Some? then M.ExponentDigits else FractionState(n)
  }

  function Signed(n: NumberText): string {
    (if n.minus then "-" else "") + n.whole
  }

  function Fractional(n: NumberText): string {
    if n.fraction.Some? then "." + n.fraction.value else ""
  }

  function Exponential(n: NumberText): string {
    if n.exponent.Some? then [n.exponent.value.mark] + n.exponent.value.sign + n.exponent.value.digits else ""
  }

  lemma RunWhole(decode: M.Decoder, s: M.Scan, below: seq<M.Frame>, top: M.Frame, n: NumberText)
    requires s.control == M.Open(below, top, M.Between) && AwaitsValue(top.phase) && WellFormedNumber(n)
    ensures M.Run(decode, s, Signed(n)) == M.Outcome(At(s, below, top, M.Number(WholeState(n))), "")
  {
    hide M.Run, M.Step;
    var last := At(s, below, top, M.Number(WholeState(n)));
    var first, rest := n.whole[0], n.whole[1..];
    assert n.whole == [first] + rest;
    RunWholeRest(decode, last, below, top, n);
    if n.minus {
      var s1 := At(s, below, top, M.Number(M.AfterMinus));
      FirstOfNumber(decode, s, below, top, '-', M.AfterMinus);
      NextOfNumber(decode, s1, below, top, M.AfterMinus, first, WholeState(n));
      RunJoin(decode, s1, [first], last, rest, M.Outcome(last, ""));
      RunJoin(decode, s, ['-'], s1, n.whole, M.Outcome(last, ""));
    } else {
      FirstOfNumber(decode, s, below, top, first, WholeState(n));
      RunJoin(decode, s, [first], last, rest, M.Outcome(last, ""));
      assert Signed(n) == n.whole;
    }
  }

  lemma RunWholeRest(decode: M.Decoder, s: M.Scan, below: seq<M.Frame>, top: M.Frame, n: NumberText)
    requires s == At(s, below, top, M.Number(WholeState(n))) && WellFormedNumber(n)
    ensures M.Run(decode, s, n.whole[1..]) == M.Outcome(s, "")
  {
    if n.whole == "0" {
      assert n.whole[1..] == "";
    } else {
      RunDigits(decode, s, below, top, M.Integer, n.whole[1..]);
    }
  }

  lemma RunFraction(decode: M.Decoder, s: M.Scan, below: seq<M.Frame>, top: M.Frame, n: NumberText)
    requires s == At(s, below, top, M.Number(WholeState(n))) && WellFormedNumber(n)
    ensures M.Run(decode, s, Fractional(n)) == M.Outcome(At(s, below, top, M.Number(FractionState(n))), "")
  {
    if n.fraction.Some? {
      var s1 := At(s, below, top, M.Number(M.AfterDot));
      var s2 := At(s, below, top, M.Number(M.Fraction));
      RunOne(decode, s, '.');
      RunDigitsFrom(decode, s1, below, top, M.AfterDot, M.Fraction, n.fraction.value);
      RunJoin(decode, s, ".", s1, n.fraction.value, M.Outcome(s2, ""));
    }
  }

  lemma RunExponent(decode: M.Decoder, s: M.Scan, below: seq<M.Frame>, top: M.Frame, n: NumberText)
    requires s == At(s, below, top, M.Number(FractionState(n))) && WellFormedNumber(n)
    ensures M.Run(decode, s, Exponential(n)) == M.Outcome(At(s, below, top, M.Number(NumberEnd(n))), "")
  {
    hide M.Run, M.Step;
    if n.exponent.None? {
      RunNothing(decode, s);
    } else {
      var e := n.exponent.value;
      var s1 := At(s, below, top, M.Number(M.AfterExponent));
      var last := M.Outcome(At(s, below, top, M.Number(M.ExponentDigits)), "");
      NextOfNumber(decode, s, below, top, FractionState(n), e.mark, M.AfterExponent);
      if e.sign == "" {
        RunDigitsFrom(decode, s1, below, top, M.AfterExponent, M.ExponentDigits, e.digits);
        assert e.sign + e.digits == e.digits;
      } else {
        var s2 := At(s, below, top, M.Number(M.AfterExponentSign));
        NextOfNumber(decode, s1, below, top, M.AfterExponent, e.sign[0], M.AfterExponentSign);
        RunDigitsFrom(decode, s2, below, top, M.AfterExponentSign, M.ExponentDigits, e.digits);
        RunJoin(decode, s1, [e.sign[0]], s2, e.digits, last);
        assert e.sign == [e.sign[0]];
      }
      RunJoin(decode, s, [e.mark], s1, e.sign + e.digits, last);
      assert Exponential(n) == [e.mark] + (e.sign + e.digits);
    }
  }

  /** Every number of the grammar is read to its end, into a state in which it may end. */
  lemma RunNumber(decode: M.Decoder, s: M.Scan, below: seq<M.Frame>, top: M.Frame, n: NumberText)
    requires s.control == M.Open(below, top, M.Between) && AwaitsValue(top.phase) && WellFormedNumber(n)
    ensures M.Run(decode, s, RenderNumber(n)) == M.Outcome(At(s, below, top, M.Number(NumberEnd(n))), "")
  {
    hide M.Run, M.Step;
    var s1 := At(s, below, top, M.Number(WholeState(n)));
    var s2 := At(s, below, top, M.Number(FractionState(n)));
    var last := M.Outcome(At(s, below, top, M.Number(NumberEnd(n))), "");
    RunWhole(decode, s, below, top, n);
    RunFraction(decode, s1, below, top, n);
    RunExponent(decode, s2, below, top, n);
    RunJoin(decode, s1, Fractional(n), s2, Exponential(n), last);
    RunJoin(decode, s, Signed(n), s1, Fractional(n) + Exponential(n), last);
    assert RenderNumber(n) == Signed(n) + (Fractional(n) + Exponential(n));
  }

  // ----- words

  /** The state once the innermost container has read a value. */
  function Settled(s: M.Scan, below: seq<M.Frame>, top: M.Frame): M.Scan {
    s.(control := M.FinishValue(below, top), content := true)
  }

  lemma {:induction false} RunWordRest(decode: M.Decoder, s: M.Scan, below: seq<M.Frame>, top: M.Frame, rest: string)
    requires s == At(s, below, top, M.WordRest(rest)) && rest != ""
    requires forall i :: 0 <= i < |rest| ==> !IsWhitespace(rest[i])
    ensures M.Run(decode, s, rest) == M.Outcome(Settled(s, below, top), "")
    decreases |rest|
  {
    RunOne(decode, s, rest[0]);
    if |rest| > 1 {
      var s1 := At(s, below, top, M.WordRest(rest[1..]));
      RunWordRest(decode, s1, below, top, rest[1..]);
      RunJoin(decode, s, [rest[0]], s1, rest[1..], M.Outcome(Settled(s, below, top), ""));
    }
    assert rest == [rest[0]] + rest[1..];
  }

  lemma RunWord(decode: M.Decoder, s: M.Scan, below: seq<M.Frame>, top: M.Frame, text: string)
    requires s.control == M.Open(below, top, M.Between) && AwaitsValue(top.phase)
    requires text == "true" || text == "false" || text == "null"
    ensures M.Run(decode, s, text) == M.Outcome(Settled(s, below, top), "")
  {
    hide M.Run, M.Step;
    var s1 := At(s, below, top, M.WordRest(text[1..]));
    FirstOfValue(decode, s, below, top, text[0]);
    assert text[1..] == "rue" || text[1..] == "alse" || text[1..] == "ull";
    RunWordRest(decode, s1, below, top, text[1..]);
    assert text == [text[0]] + text[1..];
    RunJoin(decode, s, [text[0]], s1, text[1..], M.Outcome(Settled(s, below, top), ""));
  }

  // ----- text strings

  /** What is kept of the bytes of a value since its opening quote. */
  function Kept(isCwd: bool, bytes: string): (string, bool) {
    if !isCwd then ("", false) else if |bytes| > M.MAX_CWD_BYTES then ("", true) else (bytes, false)
  }

  function TextAt(isCwd: bool, e: M.Escape, bytes: string): M.Lexeme {
    M.TextString(isCwd, e, Kept(isCwd, bytes).0, Kept(isCwd, bytes).1)
  }

  lemma StepTextAt(decode: M.Decoder, s: M.Scan, below: seq<M.Frame>, top: M.Frame, isCwd: bool, e: M.Escape,
                   bytes: string, b: Byte, e': M.Escape)
    requires s == At(s, below, top, TextAt(isCwd, e, bytes))
    requires !M.ClosesString(e, b) && M.NextEscape(e, b) == Some(e')
    ensures M.Step(decode, s, b) == M.Outcome(At(s, below, top, TextAt(isCwd, e', bytes + [b])), "")
  {
  }

  lemma {:induction false} RunTextHex(decode: M.Decoder, s: M.Scan, below: seq<M.Frame>, top: M.Frame, isCwd: bool,
                                      bytes: string, hex: string, digits: nat, value: nat)
    requires 1 <= digits == |hex| && forall i :: 0 <= i < |hex| ==> IsHexDigit(hex[i])
    requires s == At(s, below, top, TextAt(isCwd, M.UnicodeDigits(digits, value), bytes))
    ensures M.Run(decode, s, hex) == M.Outcome(At(s, below, top, TextAt(isCwd, M.Plain, bytes + hex)), "")
    decreases digits
  {
    hide M.Run, M.Step, TextAt;
    var v := M.PushHex(value, hex[0]);
    var e' := if digits == 1 then M.Plain else M.UnicodeDigits(digits - 1, v);
    var s1 := At(s, below, top, TextAt(isCwd, e', bytes + [hex[0]]));
    StepTextAt(decode, s, below, top, isCwd, M.UnicodeDigits(digits, value), bytes, hex[0], e');
    RunOne(decode, s, hex[0]);
    HexPieces(bytes, hex);
    if digits > 1 {
      RunTextHex(decode, s1, below, top, isCwd, bytes + [hex[0]], hex[1..], digits - 1, v);
      RunJoin(decode, s, [hex[0]], s1, hex[1..], M.Outcome(At(s, below, top, TextAt(isCwd, M.Plain, bytes + hex)), ""));
    }
  }

  lemma HexPieces(bytes: string, hex: string)
    requires hex != ""
    ensures hex == [hex[0]] + hex[1..] && bytes + [hex[0]] + hex[1..] == bytes + hex
    ensures |hex| == 1 ==> hex == [hex[0]]
  {
  }

  lemma RunTextChar(decode: M.Decoder, s: M.Scan, below: seq<M.Frame>, top: M.Frame, isCwd: bool, bytes: string,
                    ch: StringChar)
    requires s == At(s, below, top, TextAt(isCwd, M.Plain, bytes)) && WellFormedChar(ch)
    ensures M.Run(decode, s, RenderChar(ch)) ==
              M.Outcome(At(s, below, top, TextAt(isCwd, M.Plain, bytes + RenderChar(ch))), "")
  {
    hide M.Run, M.Step;
    match ch
    case Literal(c) =>
      StepTextAt(decode, s, below, top, isCwd, M.Plain, bytes, c, M.Plain);
      RunOne(decode, s, c);
    case Short(c) => RunTextShort(decode, s, below, top, isCwd, bytes, c);
    case Unicode(hex) => RunTextUnicode(decode, s, below, top, isCwd, bytes, hex);
  }

  lemma RunTextShort(decode: M.Decoder, s: M.Scan, below: seq<M.Frame>, top: M.Frame, isCwd: bool, bytes: string,
                     c: Byte)
    requires s == At(s, below, top, TextAt(isCwd, M.Plain, bytes)) && IsShortEscape(c)
    ensures M.Run(decode, s, [BACKSLASH, c]) ==
              M.Outcome(At(s, below, top, TextAt(isCwd, M.Plain, bytes + [BACKSLASH, c])), "")
  {
    hide M.Run, M.Step, TextAt;
    var b1 := bytes + [BACKSLASH];
    var s1 := At(s, below, top, TextAt(isCwd, M.Backslash, b1));
    StepTextAt(decode, s, below, top, isCwd, M.Plain, bytes, BACKSLASH, M.Backslash);
    StepTextAt(decode, s1, below, top, isCwd, M.Backslash, b1, c, M.Plain);
    RunOne(decode, s, BACKSLASH);
    RunOne(decode, s1, c);
    assert b1 + [c] == bytes + [BACKSLASH, c];
    RunJoin(decode, s, [BACKSLASH], s1, [c], M.Step(decode, s1, c));
    assert [BACKSLASH, c] == [BACKSLASH] + [c];
  }

  lemma RunTextUnicode(decode: M.Decoder, s: M.Scan, below: seq<M.Frame>, top: M.Frame, isCwd: bool, bytes: string,
                       hex: string)
    requires s == At(s, below, top, TextAt(isCwd, M.Plain, bytes)) && WellFormedChar(Unicode(hex))
    ensures M.Run(decode, s, RenderChar(Unicode(hex)))
            == M.Outcome(At(s, below, top, TextAt(isCwd, M.Plain, bytes + RenderChar(Unicode(hex)))), "")
  {
    hide M.Run, M.Step, TextAt;
    var b1 := bytes + [BACKSLASH];
    var b2 := b1 + ['u'];
    var s1 := At(s, below, top, TextAt(isCwd, M.Backslash, b1));
    var s2 := At(s, below, top, TextAt(isCwd, M.UnicodeDigits(4, 0), b2));
    StepTextAt(decode, s, below, top, isCwd, M.Plain, bytes, BACKSLASH, M.Backslash);
    StepTextAt(decode, s1, below, top, isCwd, M.Backslash, b1, 'u', M.UnicodeDigits(4, 0));
    RunOne(decode, s, BACKSLASH);
    RunOne(decode, s1, 'u');
    RunTextHex(decode, s2, below, top, isCwd, b2, hex, 4, 0);
    var last := M.Run(decode, s2, hex);
    RunJoin(decode, s1, ['u'], s2, hex, last);
    RunJoin(decode, s, [BACKSLASH], s1, ['u'] + hex, last);
    UnicodePieces(bytes, hex);
  }

  lemma UnicodePieces(bytes: string, hex: string)
    ensures RenderChar(Unicode(hex)) == [BACKSLASH] + (['u'] + hex)
    ensures bytes + [BACKSLASH] + ['u'] + hex == bytes + RenderChar(Unicode(hex))
  {
  }

  lemma {:induction false} RunTextChars(decode: M.Decoder, s: M.Scan, below: seq<M.Frame>, top: M.Frame, isCwd: bool,
                                        bytes: string, chars: seq<StringChar>)
    requires s == At(s, below, top, TextAt(isCwd, M.Plain, bytes)) && WellFormedChars(chars)
    ensures M.Run(decode, s, RenderChars(chars)) ==
              M.Outcome(At(s, below, top, TextAt(isCwd, M.Plain, bytes + RenderChars(chars))), "")
  {
    hide M.Run, M.Step, TextAt, RenderChar, WellFormedChar;
    if chars == [] {
      RunNothing(decode, s);
      assert bytes + "" == bytes;
    } else {
      var front, ch := chars[..|chars| - 1], chars[|chars| - 1];
      RunTextChars(decode, s, below, top, isCwd, bytes, front);
      var b1 := bytes + RenderChars(front);
      var s1 := At(s, below, top, TextAt(isCwd, M.Plain, b1));
      RunTextChar(decode, s1, below, top, isCwd, b1, ch);
      AppendPieces(bytes, RenderChars(front), RenderChar(ch));
      RunJoin(decode, s, RenderChars(front), s1, RenderChar(ch), M.Run(decode, s1, RenderChar(ch)));
    }
  }

  lemma AppendPieces(a: string, b: string, c: string)
    ensures a + b + c == a + (b + c)
  {
  }

  /** What a closed string value contributes: its decoding when it is the cwd and within the limit. */
  function Recorded(decode: M.Decoder, isCwd: bool, chars: seq<StringChar>): string {
    if isCwd && |Quoted(chars)| <= M.MAX_CWD_BYTES then decode(Quoted(chars)) else ""
  }

  lemma RunText(decode: M.Decoder, s: M.Scan, below: seq<M.Frame>, top: M.Frame, chars: seq<StringChar>)
    requires s.control == M.Open(below, top, M.Between) && AwaitsValue(top.phase) && WellFormedChars(chars)
    ensures M.Run(decode, s, Quoted(chars))
            == M.Outcome(Settled(s, below, top), Recorded(decode, M.HoldsCwd(below, top), chars))
  {
    var isCwd := M.HoldsCwd(below, top);
    var s1 := At(s, below, top, TextAt(isCwd, M.Plain, [QUOTE]));
    var b2 := [QUOTE] + RenderChars(chars);
    var s2 := At(s, below, top, TextAt(isCwd, M.Plain, b2));
    FirstOfValue(decode, s, below, top, QUOTE);
    RunTextChars(decode, s1, below, top, isCwd, [QUOTE], chars);
    RunOne(decode, s2, QUOTE);
    var last := M.Outcome(Settled(s, below, top), Recorded(decode, isCwd, chars));
    CloseText(decode, s2, below, top, isCwd, b2);
    assert b2 + [QUOTE] == Quoted(chars);
    RunJoin(decode, s1, RenderChars(chars), s2, [QUOTE], last);
    RunJoin(decode, s, [QUOTE], s1, RenderChars(chars) + [QUOTE], last);
    assert Quoted(chars) == [QUOTE] + (RenderChars(chars) + [QUOTE]);
  }

  lemma CloseText(decode: M.Decoder, s: M.Scan, below: seq<M.Frame>, top: M.Frame, isCwd: bool, bytes: string)
    requires s == At(s, below, top, TextAt(isCwd, M.Plain, bytes))
    ensures M.Step(decode, s, QUOTE)
            == M.Outcome(Settled(s, below, top),
                         if isCwd && |bytes| + 1 <= M.MAX_CWD_BYTES then decode(bytes + [QUOTE]) else "")
  {
  }

  // ----- keys

  /** One decoded key character compared with cwd, as the machine does it. */
  function MatchChar(m: (bool, nat), ch: StringChar): (bool, nat)
    requires WellFormedChar(ch)
  {
    if ch.Short? || CodeUnit(ch) > 0x7f then (false, if ch.Literal? && m.0 then m.1 + 1 else m.1)
    else M.MatchKey(m.0, m.1, CodeUnit(ch) as char)
  }

  function MatchChars(m: (bool, nat), chars: seq<StringChar>): (bool, nat)
    requires WellFormedChars(chars)
  {
    if chars == [] then m else MatchChar(MatchChars(m, chars[..|chars| - 1]), chars[|chars| - 1])
  }

  /** The first characters of the string decode to the first characters of cwd. */
  predicate SpellsPrefix(chars: seq<StringChar>)
    requires WellFormedChars(chars)
  {
    |chars| <= |KEY| && forall i :: 0 <= i < |chars| ==> CodeUnit(chars[i]) == KEY[i] as int
  }

  lemma {:induction false} MatchedPrefix(m: bool, chars: seq<StringChar>)
    requires WellFormedChars(chars)
    ensures var (matched, length) := MatchChars((m, 0), chars);
            matched == (m && SpellsPrefix(chars)) && (matched ==> length == |chars|)
  {
    if chars != [] {
      var front, ch := chars[..|chars| - 1], chars[|chars| - 1];
      MatchedPrefix(m, front);
      if SpellsPrefix(chars) {
        assert SpellsPrefix(front);
        assert CodeUnit(ch) == KEY[|front|] as int;
      } else if SpellsPrefix(front) && |chars| <= |KEY| {
        assert CodeUnit(ch) != KEY[|front|] as int;
      }
    }
  }

  /** The key comparison succeeds exactly when the key decodes to cwd. */
  lemma MatchedIsCwd(m: bool, chars: seq<StringChar>)
    requires WellFormedChars(chars)
    ensures var (matched, length) := MatchChars((m, 0), chars);
            (matched && length == |KEY|) == (m && SpellsCwd(chars))
  {
    MatchedPrefix(m, chars);
  }

  function KeyAt(e: M.Escape, m: (bool, nat)): M.Lexeme {
    M.KeyString(e, m.0, m.1)
  }

  lemma StepKeyAt(decode: M.Decoder, s: M.Scan, below: seq<M.Frame>, top: M.Frame, e: M.Escape, m: (bool, nat),
                  b: Byte, e': M.Escape)
    requires s == At(s, below, top, KeyAt(e, m))
    requires !M.ClosesString(e, b) && M.NextEscape(e, b) == Some(e')
    ensures M.Step(decode, s, b) == M.Outcome(At(s, below, top, KeyAt(e', M.CompareKey(KeyAt(e, m), b))), "")
  {
  }

  /** The value of some hexadecimal digits put after the value of those before. */
  function HexNumber(value: nat, hex: string): nat
    requires forall i :: 0 <= i < |hex| ==> IsHexDigit(hex[i])
    decreases |hex|
  {
    if hex == "" then value else HexNumber(M.PushHex(value, hex[0]), hex[1..])
  }

  function MatchHex(m: (bool, nat), v: nat): (bool, nat) {
    if v > 0x7f then (false, m.1) else M.MatchKey(m.0, m.1, v as char)
  }

  lemma RunKeyHex(decode: M.Decoder, s: M.Scan, below: seq<M.Frame>, top: M.Frame, m: (bool, nat), hex: string,
                  digits: nat, value: nat)
    requires 1 <= digits == |hex| && forall i :: 0 <= i < |hex| ==> IsHexDigit(hex[i])
    requires s == At(s, below, top, KeyAt(M.UnicodeDigits(digits, value), m))
    ensures M.Run(decode, s, hex) ==
              M.Outcome(At(s, below, top, KeyAt(M.Plain, MatchHex(m, HexNumber(value, hex)))), "")
    decreases digits
  {
    var v := M.PushHex(value, hex[0]);
    var e := M.UnicodeDigits(digits, value);
    RunOne(decode, s, hex[0]);
    assert hex == [hex[0]] + hex[1..];
    if digits == 1 {
      StepKeyAt(decode, s, below, top, e, m, hex[0], M.Plain);
      assert HexNumber(v, hex[1..]) == v;
    } else {
      var s1 := At(s, below, top, KeyAt(M.UnicodeDigits(digits - 1, v), m));
      StepKeyAt(decode, s, below, top, e, m, hex[0], M.UnicodeDigits(digits - 1, v));
      RunKeyHex(decode, s1, below, top, m, hex[1..], digits - 1, v);
      RunJoin(decode, s, [hex[0]], s1, hex[1..], M.Run(decode, s1, hex[1..]));
    }
  }

  lemma FourHexDigits(hex: string)
    requires |hex| == 4 && forall i :: 0 <= i < 4 ==> IsHexDigit(hex[i])
    ensures HexNumber(0, hex) == CodeUnit(Unicode(hex))
  {
    var v1 := M.PushHex(0, hex[0]);
    var v2 := M.PushHex(v1, hex[1]);
    var v3 := M.PushHex(v2, hex[2]);
    var v4 := M.PushHex(v3, hex[3]);
    calc {
      HexNumber(0, hex);
      HexNumber(v1, hex[1..]);
      { assert hex[1..][0] == hex[1] && hex[1..][1..] == hex[2..]; }
      HexNumber(v2, hex[2..]);
      { assert hex[2..][0] == hex[2] && hex[2..][1..] == hex[3..]; }
      HexNumber(v3, hex[3..]);
      { assert hex[3..][0] == hex[3] && hex[3..][1..] == ""; }
      HexNumber(v4, "");
      v4;
    }
    PushHexWithin(0, hex[0]);
    PushHexWithin(v1, hex[1]);
    PushHexWithin(v2, hex[2]);
    PushHexWithin(v3, hex[3]);
  }

  /** Up to four digits the sixteen-bit shift loses nothing. */
  lemma PushHexWithin(value: nat, b: Byte)
    requires IsHexDigit(b) && value < 0x1000
    ensures M.PushHex(value, b) == value * 16 + HexValue(b)
  {
  }

  lemma RunKeyChar(decode: M.Decoder, s: M.Scan, below: seq<M.Frame>, top: M.Frame, m: (bool, nat), ch: StringChar)
    requires s == At(s, below, top, KeyAt(M.Plain, m)) && WellFormedChar(ch)
    ensures M.Run(decode, s, RenderChar(ch)) == M.Outcome(At(s, below, top, KeyAt(M.Plain, MatchChar(m, ch))), "")
  {
    match ch
    case Literal(c) =>
      StepKeyAt(decode, s, below, top, M.Plain, m, c, M.Plain);
      RunOne(decode, s, c);
    case Short(c) => RunKeyShort(decode, s, below, top, m, c);
    case Unicode(hex) => RunKeyUnicode(decode, s, below, top, m, hex);
  }

  lemma RunKeyShort(decode: M.Decoder, s: M.Scan, below: seq<M.Frame>, top: M.Frame, m: (bool, nat), c: Byte)
    requires s == At(s, below, top, KeyAt(M.Plain, m)) && IsShortEscape(c)
    ensures M.Run(decode, s, [BACKSLASH, c]) == M.Outcome(At(s, below, top, KeyAt(M.Plain, (false, m.1))), "")
  {
    hide M.Run, M.Step;
    var s1 := At(s, below, top, KeyAt(M.Backslash, m));
    StepKeyAt(decode, s, below, top, M.Plain, m, BACKSLASH, M.Backslash);
    StepKeyAt(decode, s1, below, top, M.Backslash, m, c, M.Plain);
    RunOne(decode, s, BACKSLASH);
    RunOne(decode, s1, c);
    RunJoin(decode, s, [BACKSLASH], s1, [c], M.Step(decode, s1, c));
    assert [BACKSLASH, c] == [BACKSLASH] + [c];
  }

  lemma RunKeyUnicode(decode: M.Decoder, s: M.Scan, below: seq<M.Frame>, top: M.Frame, m: (bool, nat), hex: string)
    requires s == At(s, below, top, KeyAt(M.Plain, m)) && WellFormedChar(Unicode(hex))
    ensures M.Run(decode, s, RenderChar(Unicode(hex)))
            == M.Outcome(At(s, below, top, KeyAt(M.Plain, MatchChar(m, Unicode(hex)))), "")
  {
    hide M.Run, M.Step;
    var s1 := At(s, below, top, KeyAt(M.Backslash, m));
    var s2 := At(s, below, top, KeyAt(M.UnicodeDigits(4, 0), m));
    StepKeyAt(decode, s, below, top, M.Plain, m, BACKSLASH, M.Backslash);
    StepKeyAt(decode, s1, below, top, M.Backslash, m, 'u', M.UnicodeDigits(4, 0));
    RunOne(decode, s, BACKSLASH);
    RunOne(decode, s1, 'u');
    RunKeyHex(decode, s2, below, top, m, hex, 4, 0);
    FourHexDigits(hex);
    var last := M.Run(decode, s2, hex);
    RunJoin(decode, s1, ['u'], s2, hex, last);
    RunJoin(decode, s, [BACKSLASH], s1, ['u'] + hex, last);
    UnicodePieces("", hex);
  }

  lemma {:induction false} RunKeyChars(decode: M.Decoder, s: M.Scan, below: seq<M.Frame>, top: M.Frame,
                                       m: (bool, nat), chars: seq<StringChar>)
    requires s == At(s, below, top, KeyAt(M.Plain, m)) && WellFormedChars(chars)
    ensures M.Run(decode, s, RenderChars(chars)) ==
              M.Outcome(At(s, below, top, KeyAt(M.Plain, MatchChars(m, chars))), "")
  {
    if chars != [] {
      var front, ch := chars[..|chars| - 1], chars[|chars| - 1];
      RunKeyChars(decode, s, below, top, m, front);
      var m1 := MatchChars(m, front);
      var s1 := At(s, below, top, KeyAt(M.Plain, m1));
      RunKeyChar(decode, s1, below, top, m1, ch);
      RunJoin(decode, s, RenderChars(front), s1, RenderChar(ch), M.Run(decode, s1, RenderChar(ch)));
    }
  }

  predicate AwaitsKey(p: M.Phase) {
    p == M.ObjectKeyOrEnd || p == M.ObjectKey
  }

  /** The state after a key: broken and ambiguous on a second top-level cwd, else waiting for the colon. */
  function AfterKey(s: M.Scan, below: seq<M.Frame>, top: M.Frame, chars: seq<StringChar>): M.Scan
    requires WellFormedChars(chars)
  {
    var isCwd := below == [] && SpellsCwd(chars);
    if isCwd && s.seen then s.(control := M.Broken, ambiguous := true, content := true)
    else
      s.(control := M.Open(below, top.(phase := M.ObjectColon, keyIsCwd := isCwd), M.Between),
         seen := s.seen || isCwd, content := true)
  }

  lemma RunKey(decode: M.Decoder, s: M.Scan, below: seq<M.Frame>, top: M.Frame, chars: seq<StringChar>)
    requires s.control == M.Open(below, top, M.Between) && AwaitsKey(top.phase) && WellFormedChars(chars)
    ensures M.Run(decode, s, Quoted(chars)) == M.Outcome(AfterKey(s, below, top, chars), "")
  {
    var m0 := (below == [], 0);
    var s1 := At(s, below, top, KeyAt(M.Plain, m0));
    var s2 := At(s, below, top, KeyAt(M.Plain, MatchChars(m0, chars)));
    RunOne(decode, s, QUOTE);
    RunKeyChars(decode, s1, below, top, m0, chars);
    MatchedIsCwd(below == [], chars);
    RunOne(decode, s2, QUOTE);
    var last := M.Outcome(AfterKey(s, below, top, chars), "");
    RunJoin(decode, s1, RenderChars(chars), s2, [QUOTE], last);
    RunJoin(decode, s, [QUOTE], s1, RenderChars(chars) + [QUOTE], last);
    assert Quoted(chars) == [QUOTE] + (RenderChars(chars) + [QUOTE]);
  }
}
