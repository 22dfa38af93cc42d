/** The recogniser against the grammar: which records it accepts, which directory it reports,
    and when it gives up. */
module JsonTheorems {
  import opened Wrappers
  import opened JsonBytes
  import opened JsonGrammar
  import opened JsonTokens
  import opened JsonCompleteness
  import opened JsonSoundness
  import M = CwdMachine

  /** A record of the grammar with at most one top-level cwd key. */
  ghost predicate IsUnambiguousRecord(text: string) {
    exists d: Document :: WellFormedDocument(d) && RenderDocument(d) == text && CwdCount(d.members) <= 1
  }

  /** The machine ends complete exactly on the records of the grammar with at most one cwd key. */
  lemma AcceptsExactly(decode: M.Decoder, text: string)
    ensures M.Run(decode, M.START, text).scan.control == M.Complete <==> IsUnambiguousRecord(text)
  {
    hide M.Run;
    if M.Run(decode, M.START, text).scan.control == M.Complete {
      AcceptedIsRecord(decode, text);
      var d: Document :| WellFormedDocument(d) && RenderDocument(d) == text;
      RunDocument(decode, d);
    }
    if IsUnambiguousRecord(text) {
      var d: Document :| WellFormedDocument(d) && RenderDocument(d) == text && CwdCount(d.members) <= 1;
      RunDocument(decode, d);
    }
  }

  /** The count of cwd keys and the recorded directory do not depend on which tree explains the text. */
  lemma TreesAgree(decode: M.Decoder, d1: Document, d2: Document)
    requires WellFormedDocument(d1) && WellFormedDocument(d2) && RenderDocument(d1) == RenderDocument(d2)
    ensures CwdOf(decode, d1.members) == CwdOf(decode, d2.members)
    ensures CwdCount(d1.members) >= 1 <==> CwdCount(d2.members) >= 1
    ensures CwdCount(d1.members) >= 2 <==> CwdCount(d2.members) >= 2
  {
    hide M.Run;
    RunDocument(decode, d1);
    RunDocument(decode, d2);
  }

  /** The whole record is readable: in the grammar, and its one cwd key, if any, records a usable directory. */
  ghost predicate IsReadable(decode: M.Decoder, text: string) {
    exists d: Document ::
      && WellFormedDocument(d) && RenderDocument(d) == text
      && (CwdCount(d.members) == 0 || (CwdCount(d.members) == 1 && CwdOf(decode, d.members) != ""))
  }

  lemma {:induction false} ContentSeen(decode: M.Decoder, text: string)
    ensures M.Run(decode, M.START, text).scan.content == !AllWhitespace(text)
  {
    if text != "" {
      ContentSeen(decode, text[..|text| - 1]);
      StepContent(decode, M.Run(decode, M.START, text[..|text| - 1]).scan, text[|text| - 1]);
    }
  }

  lemma StepContent(decode: M.Decoder, s: M.Scan, b: Byte)
    ensures M.Step(decode, s, b).scan.content == (s.content || !IsWhitespace(b))
  {
  }

  /** A record counts as unreadable evidence exactly when it has content and is not readable. */
  lemma UnverifiableExactly(decode: M.Decoder, text: string)
    ensures var o := M.Run(decode, M.START, text);
            M.Unverifiable(o.scan, o.cwd != "") <==> !AllWhitespace(text) && !IsReadable(decode, text)
  {
    hide M.Run;
    ContentSeen(decode, text);
    AcceptsExactly(decode, text);
    if IsUnambiguousRecord(text) {
      var d: Document :| WellFormedDocument(d) && RenderDocument(d) == text && CwdCount(d.members) <= 1;
      RunDocument(decode, d);
      if IsReadable(decode, text) {
        var d2: Document :| WellFormedDocument(d2) && RenderDocument(d2) == text
          && (CwdCount(d2.members) == 0 || (CwdCount(d2.members) == 1 && CwdOf(decode, d2.members) != ""));
        TreesAgree(decode, d, d2);
      }
    }
  }

  /** Once broken, a record stays broken. */
  lemma {:induction false} BrokenForever(decode: M.Decoder, s: M.Scan, text: string)
    requires s.control == M.Broken
    ensures M.Run(decode, s, text).scan.control == M.Broken && M.Run(decode, s, text).scan.ambiguous == s.ambiguous
    ensures M.Run(decode, s, text).cwd == ""
  {
    if text != "" {
      BrokenForever(decode, s, text[..|text| - 1]);
    }
  }

  /** The key is the three characters c, w and d, each as itself or escaped, and no others. */
  lemma CwdIsSpelled(chars: seq<StringChar>)
    requires WellFormedChars(chars)
    ensures SpellsCwd(chars) <==>
            |chars| == 3 && Stands(chars[0], 'c') && Stands(chars[1], 'w') && Stands(chars[2], 'd')
  {
    assert KEY[0] == 'c' && KEY[1] == 'w' && KEY[2] == 'd';
  }

  /** The character is c, literally or as a hexadecimal escape of its code. */
  predicate Stands(ch: StringChar, c: Byte) {
    ch == Literal(c)
    || (ch.Unicode? && WellFormedChar(ch)
        && 4096 * HexValue(ch.hex[0]) + 256 * HexValue(ch.hex[1]) + 16 * HexValue(ch.hex[2]) + HexValue(ch.hex[3])
           == c as int)
  }

  function OneMember(key: seq<StringChar>, chars: seq<StringChar>): Document {
    Document("", [Member("", key, "", "", Str(chars), "")], "", "")
  }

  lemma OneMemberRenders(key: seq<StringChar>, chars: seq<StringChar>)
    ensures RenderDocument(OneMember(key, chars)) == "{" + Quoted(key) + ":" + Quoted(chars) + "}"
  {
    var m := Member("", key, "", "", Str(chars), "");
    assert [m][..0] == [];
    assert RenderMembers([m]) == "" + "" + RenderMember(m);
    hide Quoted;
    assert RenderMember(m) == "" + Quoted(key) + "" + ":" + "" + Quoted(chars) + "";
    hide *;
    OneMemberPieces(Quoted(key), Quoted(chars));
  }

  lemma OneMemberPieces(key: string, value: string)
    ensures "" + ("{" + ("" + "" + ("" + key + "" + ":" + "" + value + "")) + "" + "}") + ""
            == "{" + key + ":" + value + "}"
  {
  }

  /** A directory is kept up to 64 KiB of its quoted spelling, and not beyond. */
  lemma LongDirectories(decode: M.Decoder, key: seq<StringChar>, chars: seq<StringChar>)
    requires WellFormedChars(key) && SpellsCwd(key) && WellFormedChars(chars)
    ensures M.Run(decode, M.START, "{" + Quoted(key) + ":" + Quoted(chars) + "}")
            == M.Outcome(Verdict(1), if |Quoted(chars)| <= 65536 then decode(Quoted(chars)) else "")
  {
    hide M.Run, RenderDocument, Quoted, RenderMembers;
    var d := OneMember(key, chars);
    assert d.members[..0] == [] && WellFormedMembers(d.members) && WellFormedDocument(d);
    assert CwdCount(d.members) == 1 && CwdCount([]) == 0;
    OneMemberRenders(key, chars);
    RunDocument(decode, d);
  }

  // ----- the machine rejects at the first byte that leaves no way to go on

  /** How many bytes finish the innermost container from here. */
  function TopMeasure(top: M.Frame, l: M.Lexeme): nat {
    match l
    case Between => PhaseMeasure(top.phase)
    case KeyString(e, matched, _) => (if e == M.Plain && !matched then 4 else 5) + EscapeMeasure(e)
    case TextString(_, e, _, _) => 2 + EscapeMeasure(e) + (if e == M.Backslash then 1 else 0)
    case WordRest(rest) => 1 + |rest|
    case Number(n) => if M.CanEnd(n) then 1 else 2
  }

  function EscapeMeasure(e: M.Escape): nat {
    if e.UnicodeDigits? then e.digits else 0
  }

  function PhaseMeasure(p: M.Phase): nat {
    match p
    case ObjectKey => 6
    case ObjectColon => 3
    case ObjectValue => 2
    case ArrayValue => 2
    case _ => 1
  }

  function Measure(c: M.Control): nat {
    match c
    case Fresh => 2
    case Open(below, top, l) => |below| + TopMeasure(top, l)
    case _ => 0
  }

  function ClosingByte(top: M.Frame): Byte {
    if top.kind == '{' then '}' else ']'
  }

  function NextByte(c: M.Control): Byte {
    match c
    case Open(_, top, Between) =>
      if top.phase == M.ObjectKey then QUOTE
      else if top.phase == M.ObjectColon then ':'
      else if top.phase == M.ObjectValue || top.phase == M.ArrayValue then '0'
      else ClosingByte(top)
    case Open(_, _, KeyString(e, matched, _)) =>
      if e.UnicodeDigits? then '0' else if e.Backslash? then 'n' else if matched then 'x' else QUOTE
    case Open(_, _, TextString(_, e, _, _)) =>
      if e.UnicodeDigits? then '0' else if e.Backslash? then 'n' else QUOTE
    case Open(_, _, WordRest(rest)) => if rest == "" then '0' else rest[0]
    case Open(_, top, Number(n)) => if M.CanEnd(n) then ClosingByte(top) else '0'
    case _ => '{'
  }

  lemma Advances(decode: M.Decoder, s: M.Scan, x: Prefix)
    requires Fits(x, s.control) && s.control != M.Complete
    ensures var c := M.Step(decode, s, NextByte(s.control)).scan.control;
            c != M.Broken && Measure(c) < Measure(s.control)
  {
    hide Grows, RenderPrefix, WellFormedPartial;
    if s.control.Open? {
      OpenAdvances(decode, s.(content := s.content || !IsWhitespace(NextByte(s.control))), x);
    }
  }

  /** Finishing a value, or closing a container, leaves less to do. */
  lemma FinishAdvances(c: M.Control, x: Prefix)
    requires c.Open? && Fits(x, c)
    ensures ExpectsValue(x.inner) ==>
              && M.FinishValue(c.below, c.top).Open? && Measure(M.FinishValue(c.below, c.top)) == |c.below| + 1
    ensures M.AfterValue(c.below) != M.Broken && Measure(M.AfterValue(c.below)) <= |c.below|
  {
    hide RenderPrefix, WellFormedPartial;
    if c.below != [] {
      assert FrameFits(x.outer[|c.below| - 1], c.below[|c.below| - 1]);
    }
  }

  /** A container that may close does so on its own closing byte. */
  lemma CloseAdvances(c: M.Control, x: Prefix)
    requires c.Open? && Fits(x, c) && c.lexeme == M.Between
    requires x.inner.ObjStart? || x.inner.ObjNext? || x.inner.ArrStart? || x.inner.ArrNext?
    ensures M.StepBetween(c.below, c.top, ClosingByte(c.top)) == M.AfterValue(c.below)
  {
    hide RenderPrefix, WellFormedPartial, M.AfterValue;
  }

  lemma BetweenAdvances(c: M.Control, x: Prefix)
    requires c.Open? && Fits(x, c) && c.lexeme == M.Between
    ensures var c' := M.StepBetween(c.below, c.top, NextByte(c));
            c' != M.Broken && Measure(c') < Measure(c)
  {
    hide RenderPrefix, WellFormedPartial, M.AfterValue;
    FinishAdvances(c, x);
    if x.inner.ObjStart? || x.inner.ObjNext? || x.inner.ArrStart? || x.inner.ArrNext? {
      CloseAdvances(c, x);
    }
  }

  lemma NumberAdvances(c: M.Control, x: Prefix, state: M.NumberState)
    requires c.Open? && Fits(x, c) && c.lexeme == M.Number(state) && M.CanEnd(state)
    ensures M.NextNumber(state, NextByte(c)).None?
    ensures var c' := M.EndNumber(c.below, c.top, state, NextByte(c));
            c' != M.Broken && Measure(c') < Measure(c)
  {
    hide RenderPrefix, WellFormedPartial, M.AfterValue;
    FinishAdvances(c, x);
    var x1 := NumberSettles(x, c);
    CloseAdvances(M.FinishValue(c.below, c.top), x1);
  }

  lemma OpenAdvances(decode: M.Decoder, s: M.Scan, x: Prefix)
    requires s.control.Open? && Fits(x, s.control)
    ensures var c := M.StepOpen(decode, s, NextByte(s.control)).scan.control;
            c != M.Broken && Measure(c) < Measure(s.control)
  {
    hide RenderPrefix, WellFormedPartial, M.AfterValue, M.FinishValue, M.StepBetween, M.EndNumber, OuterFits, M.Retain;
    var c := s.control;
    match c.lexeme
    case Between => BetweenAdvances(c, x);
    case Number(n) => if M.CanEnd(n) { NumberAdvances(c, x, n); }
    case KeyString(_, _, _) => KeyAdvances(s, x);
    case TextString(_, _, _, _) => FinishAdvances(c, x);
    case WordRest(_) => FinishAdvances(c, x);
  }

  lemma KeyAdvances(s: M.Scan, x: Prefix)
    requires s.control.Open? && Fits(x, s.control) && s.control.lexeme.KeyString?
    ensures var c := M.StepKey(s, NextByte(s.control)).control;
            c != M.Broken && Measure(c) < Measure(s.control)
  {
    hide RenderPrefix, WellFormedPartial, OuterFits;
  }

  lemma Completes(decode: M.Decoder, s: M.Scan, x: Prefix) returns (rest: string)
    requires Fits(x, s.control)
    ensures M.Run(decode, s, rest).scan.control == M.Complete
    decreases Measure(s.control)
  {
    hide M.Step, M.Run;
    if s.control == M.Complete {
      rest := "";
      RunNothing(decode, s);
    } else {
      var b := NextByte(s.control);
      Advances(decode, s, x);
      var x1 := StepGrows(decode, s, x, b);
      var rest1 := Completes(decode, M.Step(decode, s, b).scan, x1);
      rest := [b] + rest1;
      RunOne(decode, s, b);
      M.RunConcat(decode, s, [b], rest1);
    }
  }

  /** The record is given up at the very byte after which no continuation could be accepted, and not before. */
  lemma RejectsEarliest(decode: M.Decoder, text: string)
    ensures M.Run(decode, M.START, text).scan.control == M.Broken
            <==> forall rest: string :: !IsUnambiguousRecord(text + rest)
  {
    hide M.Step, M.Run;
    var s := M.Run(decode, M.START, text).scan;
    if s.control == M.Broken {
      forall rest: string ensures !IsUnambiguousRecord(text + rest) {
        M.RunConcat(decode, M.START, text, rest);
        BrokenForever(decode, s, rest);
        AcceptsExactly(decode, text + rest);
      }
    } else {
      var x := RunGrows(decode, text);
      var rest := Completes(decode, s, x);
      M.RunConcat(decode, M.START, text, rest);
      AcceptsExactly(decode, text + rest);
    }
  }

  // ----- what the grammar holds

  /** Numbers may have a sign, a fraction and an exponent with or without a sign; a whole part of several digits does
      not begin with zero. */
  lemma NumberForms()
    ensures var n := NumberText(true, "0", Some("05"), Some(Exponent('E', "-", "10")));
            WellFormedNumber(n) && RenderNumber(n) == "-0.05E-10"
    ensures var n := NumberText(false, "12", None, Some(Exponent('e', "", "0")));
            WellFormedNumber(n) && RenderNumber(n) == "12e0"
    ensures forall n :: WellFormedNumber(n) && |n.whole| > 1 ==> n.whole[0] != '0'
    ensures forall n :: WellFormedNumber(n) && n.fraction.Some? ==> n.fraction.value != ""
    ensures forall n :: WellFormedNumber(n) && n.exponent.Some? ==>
                          n.exponent.value.digits != "" && n.exponent.value.sign in {"", "+", "-"}
  {
  }

  /** The three words are values, and no other word is. */
  lemma WordForms(text: string)
    ensures WellFormedValue(Word(text)) <==> text == "true" || text == "false" || text == "null"
    ensures RenderValue(Word(text)) == text
  {
  }
}
