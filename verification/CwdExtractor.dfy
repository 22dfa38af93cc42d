/** The streaming extractor as it is written: flags, counters and a container stack updated in place.
    Abs reads the machine state off the fields; every method is tied to the machine through it. */
module CwdExtractor {
  import opened Wrappers
  import opened JsonBytes
  import opened CwdMachine

  /** The part of the state that concerns the string being read. */
  datatype StringScan = StringScan(
    inString: bool, stringIsKey: bool, stringIsCwd: bool, escaped: bool, unicodeDigits: nat, unicodeValue: nat,
    keyMatched: bool, keyLength: nat, cwdRaw: string, cwdTooLong: bool)

  const NO_STRING := StringScan(false, false, false, false, 0, 0, false, 0, "", false)

  /** The extractor's fields at one moment. */
  datatype Fields = Fields(
    containers: seq<Frame>, started: bool, complete: bool, invalid: bool, recordContent: bool,
    text: StringScan, cwdFieldSeen: bool, cwdAmbiguous: bool,
    literalRemaining: string, numberState: Option<NumberState>)

  /** The flags while the record is still acceptable. */
  predicate Consistent(f: Fields) {
    f.invalid ||
    (&& (!f.started ==> f.containers == [] && !f.complete)
     && (f.complete ==> f.started && f.containers == [])
     && (f.started && !f.complete ==> f.containers != [])
     && (f.text.inString || f.literalRemaining != "" || f.numberState.Some? ==> f.containers != [])
     && (f.text.inString ==> f.literalRemaining == "" && f.numberState.None? && StringFlags(f))
     && (f.literalRemaining != "" ==> f.numberState.None?))
  }

  predicate StringFlags(f: Fields) {
    && (f.text.unicodeDigits > 0 ==> !f.text.escaped)
    && (!f.text.stringIsKey ==>
          && (f.text.cwdTooLong ==> f.text.cwdRaw == "")
          && (!f.text.stringIsCwd ==> f.text.cwdRaw == "" && !f.text.cwdTooLong))
  }

  function EscapeState(f: Fields): Escape {
    if f.text.unicodeDigits > 0 then UnicodeDigits(f.text.unicodeDigits, f.text.unicodeValue)
    else if f.text.escaped then Backslash else Plain
  }

  function CurrentLexeme(f: Fields): Lexeme {
    if f.text.inString && f.text.stringIsKey then KeyString(EscapeState(f), f.text.keyMatched, f.text.keyLength)
    else if f.text.inString then TextString(f.text.stringIsCwd, EscapeState(f), f.text.cwdRaw, f.text.cwdTooLong)
    else if f.literalRemaining != "" then WordRest(f.literalRemaining)
    else if f.numberState.Some? then Number(f.numberState.value)
    else Between
  }

  function Below(f: Fields): seq<Frame>
    requires f.containers != []
  {
    f.containers[..|f.containers| - 1]
  }

  function Top(f: Fields): Frame
    requires f.containers != []
  {
    f.containers[|f.containers| - 1]
  }

  function Abs(f: Fields): Scan
    requires Consistent(f)
  {
    Scan(
      if f.invalid then Broken
      else if f.complete then Complete
      else if !f.started then Fresh
      else Open(Below(f), Top(f), CurrentLexeme(f)),
      f.cwdFieldSeen, f.cwdAmbiguous, f.recordContent)
  }

  /** A container is open, no token is being read, the record is acceptable so far. */
  predicate BetweenTokens(f: Fields) {
    && Consistent(f) && !f.invalid && f.started && !f.complete
    && !f.text.inString && f.literalRemaining == "" && f.numberState.None?
  }

  /** The string being read after a byte that moved its escape state to e. */
  function AdvanceLexeme(l: Lexeme, e: Escape, b: Byte): Lexeme {
    match l
    case KeyString(escape, matched, length) =>
      var (matched', length') := CompareKey(KeyString(escape, matched, length), b);
      KeyString(e, matched', length')
    case TextString(isCwd, escape, raw, tooLong) => TextString(isCwd, e, raw, tooLong)
    case _ => l
  }

  function RetainLexeme(l: Lexeme, b: Byte): Lexeme {
    match l
    case TextString(isCwd, escape, _, _) =>
      var (raw, tooLong) := Retain(l, b);
      TextString(isCwd, escape, raw, tooLong)
    case _ => l
  }

  predicate EndsNumber(n: NumberState, b: Byte) {
    NextNumber(n, b).None? && CanEnd(n) && IsDelimiter(b)
  }

  /** Ending a number and offering the byte again is the machine's single step on that byte. */
  lemma ResumeAfterNumber(decode: Decoder, s: Scan, b: Byte)
    requires s.control.Open? && s.control.lexeme.Number? && EndsNumber(s.control.lexeme.state, b)
    ensures Step(decode, s.(control := FinishValue(s.control.below, s.control.top)), b) == Step(decode, s, b)
    ensures Step(decode, s, b).cwd == ""
  {
  }

  class CwdMetadataExtractor {
    const decode: Decoder
    var containers: seq<Frame>
    var started: bool
    var complete: bool
    var invalid: bool
    var recordContent: bool
    var text: StringScan
    var cwdFieldSeen: bool
    var cwdAmbiguous: bool
    var literalRemaining: string
    var numberState: Option<NumberState>

    ghost function Now(): Fields
      reads this
    {
      Fields(containers, started, complete, invalid, recordContent, text, cwdFieldSeen, cwdAmbiguous,
             literalRemaining, numberState)
    }

    constructor (decode: Decoder)
      ensures this.decode == decode
      ensures Consistent(Now()) && Abs(Now()) == START
    {
      this.decode := decode;
      containers, started, complete, invalid, recordContent := [], false, false, false, false;
      text, cwdFieldSeen, cwdAmbiguous, literalRemaining, numberState := NO_STRING, false, false, "", None;
    }

    method Reset()
      modifies this
      ensures Consistent(Now()) && Abs(Now()) == START
    {
      containers, started, complete, invalid, recordContent := [], false, false, false, false;
      text, cwdFieldSeen, cwdAmbiguous, literalRemaining, numberState := NO_STRING, false, false, "", None;
    }

    method StartKeyString()
      requires BetweenTokens(Now())
      modifies this`text
      ensures Consistent(Now())
      ensures Abs(Now()) == old(Abs(Now()).(control := StartKey(Below(Now()), Top(Now()))))
    {
      text := text.(inString := true, stringIsKey := true, stringIsCwd := false, escaped := false,
                    unicodeDigits := 0, keyMatched := |containers| == 1, keyLength := 0);
    }

    method OpenContainer(kind: Byte, phase: Phase)
      requires BetweenTokens(Now())
      modifies this`containers
      ensures Consistent(Now())
      ensures Abs(Now()) == old(Abs(Now()).(control :=
                                            Open(Below(Now()) + [Top(Now())], Frame(kind, phase, false), Between)))
    {
      containers := containers + [Frame(kind, phase, false)];
      assert Below(Now()) == old(containers) == old(Below(Now())) + [old(Top(Now()))];
    }

    method StartTextString()
      requires BetweenTokens(Now())
      modifies this`text
      ensures Consistent(Now())
      ensures Abs(Now()) == old(Abs(Now()).(control := StartValue(Below(Now()), Top(Now()), QUOTE)))
    {
      var frame := containers[|containers| - 1];
      var isCwd := |containers| == 1 && frame.kind == '{' && frame.keyIsCwd;
      text := text.(inString := true, stringIsKey := false, stringIsCwd := isCwd, escaped := false,
                    unicodeDigits := 0, cwdRaw := "", cwdTooLong := false);
      if isCwd {
        text := text.(cwdRaw := [QUOTE]);
      }
    }

    /** The first byte of a value. */
    method StartValueByte(b: Byte)
      requires BetweenTokens(Now())
      requires Top(Now()).phase.ObjectValue? || Top(Now()).phase.ArrayValueOrEnd? || Top(Now()).phase.ArrayValue?
      modifies this`containers, this`text, this`literalRemaining, this`numberState, this`invalid
      ensures Consistent(Now())
      ensures Abs(Now()) == old(Abs(Now()).(control := StartValue(Below(Now()), Top(Now()), b)))
    {
      match b {
        case '\"' => StartTextString();
        case '{' => OpenContainer('{', ObjectKeyOrEnd);
        case '[' => OpenContainer('[', ArrayValueOrEnd);
        case 't' => literalRemaining := "rue";
        case 'f' => literalRemaining := "alse";
        case 'n' => literalRemaining := "ull";
        case '-' => numberState := Some(AfterMinus);
        case '0' => numberState := Some(Zero);
        case _ =>
          if '1' <= b <= '9' {
            numberState := Some(Integer);
          } else {
            invalid := true;
          }
      }
    }

    /** Tells the innermost open container that its value is read; with none open the record is complete. */
    method FinishValueInContainer()
      requires !invalid && started && !complete && !text.inString && literalRemaining == "" && numberState.None?
      modifies this`containers, this`complete, this`invalid
      ensures Consistent(Now())
      ensures Abs(Now()) == old(Scan(AfterValue(containers), cwdFieldSeen, cwdAmbiguous, recordContent))
    {
      if |containers| == 0 {
        complete := true;
        return;
      }
      var last := |containers| - 1;
      var frame := containers[last];
      match frame.phase {
        case ObjectValue =>
          containers := containers[..last] + [frame.(phase := ObjectCommaOrEnd, keyIsCwd := false)];
        case ArrayValueOrEnd =>
          containers := containers[..last] + [frame.(phase := ArrayCommaOrEnd)];
        case ArrayValue =>
          containers := containers[..last] + [frame.(phase := ArrayCommaOrEnd)];
        case _ => invalid := true;
      }
    }

    method CloseContainer(closing: Byte)
      requires BetweenTokens(Now())
      modifies this`containers, this`complete, this`invalid
      ensures Consistent(Now())
      ensures Abs(Now()) == old(Abs(Now()).(control := Close(Below(Now()), Top(Now()), closing)))
    {
      var frame := containers[|containers| - 1];
      if (closing == '}' && frame.kind != '{') || (closing == ']' && frame.kind != '[') {
        invalid := true;
        return;
      }
      containers := containers[..|containers| - 1];
      if |containers| == 0 {
        complete := true;
        return;
      }
      FinishValueInContainer();
    }

    /** Whether the byte continues the number being read. */
    method FeedNumberByte(b: Byte) returns (consumed: bool)
      requires numberState.Some?
      modifies this`numberState
      ensures var next := NextNumber(old(numberState).value, b);
              consumed == next.Some? && numberState == if consumed then next else old(numberState)
    {
      match numberState.value {
        case AfterMinus =>
          if b == '0' {
            numberState := Some(Zero);
            return true;
          }
          if '1' <= b <= '9' {
            numberState := Some(Integer);
            return true;
          }
        case Zero =>
          if b == '.' {
            numberState := Some(AfterDot);
            return true;
          }
          if b == 'e' || b == 'E' {
            numberState := Some(AfterExponent);
            return true;
          }
        case Integer =>
          if '0' <= b <= '9' {
            return true;
          }
          if b == '.' {
            numberState := Some(AfterDot);
            return true;
          }
          if b == 'e' || b == 'E' {
            numberState := Some(AfterExponent);
            return true;
          }
        case AfterDot =>
          if '0' <= b <= '9' {
            numberState := Some(Fraction);
            return true;
          }
        case Fraction =>
          if '0' <= b <= '9' {
            return true;
          }
          if b == 'e' || b == 'E' {
            numberState := Some(AfterExponent);
            return true;
          }
        case AfterExponent =>
          if b == '+' || b == '-' {
            numberState := Some(AfterExponentSign);
            return true;
          }
          if '0' <= b <= '9' {
            numberState := Some(ExponentDigits);
            return true;
          }
        case AfterExponentSign =>
          if '0' <= b <= '9' {
            numberState := Some(ExponentDigits);
            return true;
          }
        case ExponentDigits =>
          if '0' <= b <= '9' {
            return true;
          }
      }
      return false;
    }

    method MatchKeyByte(b: Byte)
      modifies this`text
      ensures var (matched, length) := MatchKey(old(text).keyMatched, old(text).keyLength, b);
              text == old(text).(keyMatched := matched, keyLength := length)
    {
      if !text.keyMatched {
        return;
      }
      if text.keyLength >= |KEY| || KEY[text.keyLength] != b {
        text := text.(keyMatched := false);
      }
      text := text.(keyLength := text.keyLength + 1);
    }

    /** One byte of a string; the result is the recorded directory when the byte closes a usable one. */
    method FeedStringByte(b: Byte) returns (cwd: string)
      requires Consistent(Now()) && !invalid && started && !complete && text.inString
      modifies this`containers, this`complete, this`invalid, this`text, this`cwdFieldSeen, this`cwdAmbiguous
      ensures Consistent(Now())
      ensures Outcome(Abs(Now()), cwd) == old(StepOpen(decode, Abs(Now()), b))
    {
      RetainByte(b);
      cwd := "";
      if text.unicodeDigits > 0 || text.escaped || b != QUOTE {
        FeedInsideString(b);
      } else if text.stringIsKey {
        CloseKey();
      } else {
        cwd := CloseText();
      }
    }

    /** A byte that does not close the string. */
    method FeedInsideString(b: Byte)
      requires text.inString && StringFlags(Now()) && !invalid && !ClosesString(EscapeState(Now()), b)
      modifies this`invalid, this`text
      ensures var next := old(NextEscape(EscapeState(Now()), b));
              && invalid == next.None?
              && (next.Some? ==>
                    && text.inString && StringFlags(Now()) && EscapeState(Now()) == next.value
                    && CurrentLexeme(Now())
                       == AdvanceLexeme(old(CurrentLexeme(Now())), next.value, b))
    {
      if text.unicodeDigits > 0 {
        FeedUnicodeDigit(b);
      } else if text.escaped {
        FeedEscaped(b);
      } else if b == BACKSLASH {
        text := text.(escaped := true);
      } else if b < ' ' {
        invalid := true;
      } else if text.stringIsKey {
        MatchKeyByte(b);
      }
    }

    /** Keeps the byte when it belongs to a cwd value within the size limit. */
    method RetainByte(b: Byte)
      requires text.inString && StringFlags(Now())
      modifies this`text
      ensures text == old(text).(cwdRaw := text.cwdRaw, cwdTooLong := text.cwdTooLong)
      ensures StringFlags(Now())
      ensures EscapeState(Now()) == old(EscapeState(Now()))
      ensures CurrentLexeme(Now()) == RetainLexeme(old(CurrentLexeme(Now())), b)
    {
      if text.stringIsCwd && !text.cwdTooLong {
        text := text.(cwdRaw := text.cwdRaw + [b]);
        if |text.cwdRaw| > MAX_CWD_BYTES {
          text := text.(cwdRaw := "", cwdTooLong := true);
        }
      }
    }

    method FeedUnicodeDigit(b: Byte)
      requires text.inString && text.unicodeDigits > 0
      modifies this`text, this`invalid
      ensures IsHexDigit(b) ==>
                var value := PushHex(old(text).unicodeValue, b);
                var (matched, length) :=
                  if old(text).unicodeDigits > 1 || !old(text).stringIsKey
                    then (old(text).keyMatched, old(text).keyLength)
                  else if value > 0x7f then (false, old(text).keyLength)
                  else MatchKey(old(text).keyMatched, old(text).keyLength, value as char);
                invalid == old(invalid) && text == old(text).(unicodeDigits := old(text).unicodeDigits - 1,
                                     unicodeValue := value, keyMatched := matched, keyLength := length)
      ensures !IsHexDigit(b) ==> invalid && text == old(text)
    {
      if !IsHexDigit(b) {
        invalid := true;
        return;
      }
      text := text.(unicodeValue := (text.unicodeValue * 16 + HexValue(b)) % 0x10000);
      text := text.(unicodeDigits := text.unicodeDigits - 1);
      if text.unicodeDigits == 0 && text.stringIsKey {
        if text.unicodeValue > 0x7f {
          text := text.(keyMatched := false);
        } else {
          MatchKeyByte(text.unicodeValue as char);
        }
      }
    }

    method FeedEscaped(b: Byte)
      requires text.inString && text.escaped && text.unicodeDigits == 0
      modifies this`text, this`invalid
      ensures IsShortEscape(b) ==>
                && invalid == old(invalid)
                && text == old(text).(escaped := false, keyMatched := old(text).keyMatched && !old(text).stringIsKey)
      ensures b == 'u' ==>
                && invalid == old(invalid)
                && text == old(text).(escaped := false, unicodeDigits := 4, unicodeValue := 0)
      ensures !IsShortEscape(b) && b != 'u' ==> invalid && text == old(text).(escaped := false)
    {
      text := text.(escaped := false);
      if IsShortEscape(b) {
        // No short escape decodes to c, w or d.
        if text.stringIsKey {
          text := text.(keyMatched := false);
        }
      } else if b == 'u' {
        text := text.(unicodeDigits := 4, unicodeValue := 0);
      } else {
        invalid := true;
      }
    }

    /** The closing quote of a key. */
    method CloseKey()
      requires Consistent(Now()) && !invalid && started && !complete && text.inString && text.stringIsKey
      requires EscapeState(Now()) == Plain
      modifies this`containers, this`invalid, this`text, this`cwdFieldSeen, this`cwdAmbiguous
      ensures Consistent(Now())
      ensures Abs(Now()) == old(StepKey(Abs(Now()), QUOTE))
    {
      text := text.(inString := false);
      var frame := containers[|containers| - 1].(keyIsCwd := text.keyMatched && text.keyLength == |KEY|);
      if frame.keyIsCwd {
        if cwdFieldSeen {
          cwdAmbiguous := true;
          invalid := true;
        }
        cwdFieldSeen := true;
      }
      containers := containers[..|containers| - 1] + [frame.(phase := ObjectColon)];
    }

    /** The closing quote of a value. */
    method CloseText() returns (cwd: string)
      requires Consistent(Now()) && !invalid && started && !complete && text.inString && !text.stringIsKey
      requires EscapeState(Now()) == Plain
      modifies this`containers, this`complete, this`invalid, this`text
      ensures Consistent(Now())
      ensures Abs(Now()) == old(Abs(Now()).(control := FinishValue(Below(Now()), Top(Now()))))
      ensures cwd == if old(text).stringIsCwd && !old(text).cwdTooLong then decode(old(text).cwdRaw) else ""
    {
      text := text.(inString := false);
      cwd := "";
      if text.stringIsCwd && !text.cwdTooLong {
        cwd := decode(text.cwdRaw);
      }
      FinishValueInContainer();
    }

    /** A byte between tokens inside a container. */
    method FeedStructuralByte(b: Byte)
      requires BetweenTokens(Now()) && !IsWhitespace(b)
      modifies this`containers, this`complete, this`invalid, this`text, this`literalRemaining, this`numberState
      ensures Consistent(Now())
      ensures Abs(Now()) == old(Abs(Now()).(control := StepBetween(Below(Now()), Top(Now()), b)))
    {
      var last := |containers| - 1;
      var frame := containers[last];
      match frame.phase {
        case ObjectKeyOrEnd =>
          if b == '}' {
            CloseContainer('}');
          } else if b == QUOTE {
            StartKeyString();
          } else {
            invalid := true;
          }
        case ObjectKey =>
          if b == QUOTE {
            StartKeyString();
          } else {
            invalid := true;
          }
        case ObjectColon =>
          if b == ':' {
            SetPhase(ObjectValue);
          } else {
            invalid := true;
          }
        case ObjectValue => StartValueByte(b);
        case ArrayValueOrEnd =>
          if b == ']' {
            CloseContainer(']');
          } else {
            StartValueByte(b);
          }
        case ArrayValue => StartValueByte(b);
        case ObjectCommaOrEnd =>
          if b == ',' {
            SetPhase(ObjectKey);
          } else if b == '}' {
            CloseContainer('}');
          } else {
            invalid := true;
          }
        case ArrayCommaOrEnd =>
          if b == ',' {
            SetPhase(ArrayValue);
          } else if b == ']' {
            CloseContainer(']');
          } else {
            invalid := true;
          }
      }
    }

    method SetPhase(phase: Phase)
      requires BetweenTokens(Now())
      modifies this`containers
      ensures Consistent(Now())
      ensures Abs(Now()) == old(Abs(Now()).(control := Open(Below(Now()), Top(Now()).(phase := phase), Between)))
    {
      var last := |containers| - 1;
      containers := containers[last := containers[last].(phase := phase)];
    }

    /** One turn of the feeding loop. A byte that ends a number is not consumed: the same byte is
        offered again as the next token. */
    method FeedOnce(b: Byte) returns (consumed: bool, cwd: string)
      requires Consistent(Now())
      modifies this
      ensures Consistent(Now())
      ensures consumed ==> Outcome(Abs(Now()), cwd) == Step(decode, old(Abs(Now())), b)
      ensures !consumed ==>
                && cwd == "" && old(numberState).Some? && numberState.None?
                && Step(decode, Abs(Now()), b) == Step(decode, old(Abs(Now())), b)
    {
      cwd := "";
      consumed := true;
      if !IsWhitespace(b) {
        recordContent := true;
      }
      if invalid {
        return;
      }
      if text.inString {
        cwd := FeedStringByte(b);
        return;
      }
      if literalRemaining != "" {
        FeedLiteralByte(b);
        return;
      }
      if numberState.Some? {
        ghost var s := Abs(Now());
        consumed := FeedInNumber(b);
        if !consumed {
          ResumeAfterNumber(decode, s, b);
        }
        return;
      }
      if complete {
        if !IsWhitespace(b) {
          invalid := true;
        }
        return;
      }
      if !started {
        StartRecord(b);
        return;
      }
      if IsWhitespace(b) {
        return;
      }
      FeedStructuralByte(b);
    }

    /** Continues a number, breaks the record, or ends the number without consuming the byte. */
    method FeedInNumber(b: Byte) returns (consumed: bool)
      requires Consistent(Now()) && !invalid && started && !complete && numberState.Some?
      modifies this`containers, this`complete, this`invalid, this`numberState
      ensures Consistent(Now())
      ensures consumed ==> Outcome(Abs(Now()), "") == old(StepOpen(decode, Abs(Now()), b))
      ensures !consumed ==>
                && numberState.None? && EndsNumber(old(numberState).value, b)
                && Abs(Now()) == old(Abs(Now()).(control := FinishValue(Below(Now()), Top(Now()))))
    {
      var more := FeedNumberByte(b);
      if more {
        return true;
      }
      if !CanEnd(numberState.value) || !IsDelimiter(b) {
        invalid := true;
        return true;
      }
      numberState := None;
      FinishValueInContainer();
      return false;
    }

    /** A byte before the record's opening brace. */
    method StartRecord(b: Byte)
      requires Consistent(Now()) && !invalid && !started && (!IsWhitespace(b) ==> recordContent)
      modifies this`containers, this`started, this`invalid
      ensures Consistent(Now())
      ensures Outcome(Abs(Now()), "") == Step(decode, old(Abs(Now())), b)
    {
      if IsWhitespace(b) {
        return;
      }
      if b != '{' {
        invalid := true;
        return;
      }
      started := true;
      containers := containers + [Frame('{', ObjectKeyOrEnd, false)];
    }

    method FeedLiteralByte(b: Byte)
      requires Consistent(Now()) && !invalid && started && !complete && !text.inString && literalRemaining != ""
      modifies this`containers, this`complete, this`invalid, this`literalRemaining
      ensures Consistent(Now())
      ensures Outcome(Abs(Now()), "") == old(StepOpen(decode, Abs(Now()), b))
    {
      if b != literalRemaining[0] {
        invalid := true;
      } else {
        literalRemaining := literalRemaining[1..];
        if literalRemaining == "" {
          FinishValueInContainer();
        }
      }
    }

    /** Feeds one fragment of the record; the result is the first usable cwd in it. */
    method Feed(data: string) returns (foundCwd: string)
      requires Consistent(Now())
      modifies this
      ensures Consistent(Now())
      ensures Outcome(Abs(Now()), foundCwd) == Run(decode, old(Abs(Now())), data)
    {
      foundCwd := "";
      var i := 0;
      ghost var s := Abs(Now());
      while i < |data|
        invariant 0 <= i <= |data| && Consistent(Now())
        invariant Run(decode, old(Abs(Now())), data[..i]) == Outcome(s, foundCwd)
        invariant Abs(Now()) == s || (i < |data| && numberState.None?
                                      && Step(decode, Abs(Now()), data[i]) == Step(decode, s, data[i]))
        decreases |data| - i, if numberState.Some? then 1 else 0
      {
        var consumed, cwd := FeedOnce(data[i]);
        if consumed {
          RunSnoc(decode, old(Abs(Now())), data[..i], data[i]);
          assert data[..i + 1] == data[..i] + [data[i]];
          if foundCwd == "" {
            foundCwd := cwd;
          }
          s := Abs(Now());
          i := i + 1;
        }
      }
      assert data[..|data|] == data;
    }

    method UnverifiableRecord(cwdFound: bool) returns (r: bool)
      requires Consistent(Now())
      ensures r == Unverifiable(Abs(Now()), cwdFound)
    {
      return recordContent && (invalid || !complete || (cwdFieldSeen && !cwdFound));
    }
  }
}
