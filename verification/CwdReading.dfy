/** What the machine has found after any text at all: whole records, broken ones, and ones cut short. */
module CwdReading {
  import opened JsonBytes
  import opened JsonGrammar
  import opened JsonTokens
  import opened JsonCompleteness
  import opened JsonSoundness
  import opened JsonTheorems
  import M = CwdMachine

  // ----- what a text says, as far as it goes

  /** The text begins with an object that has these members. */
  predicate OpensWith(text: string, lead: string, members: seq<Member>) {
    AllWhitespace(lead) && WellFormedMembers(members) && lead + "{" + RenderMembers(members) <= text
  }

  /** The last member is the first one keyed cwd, and its value is a string short enough that decodes to cwd. */
  predicate IsFirstCwd(decode: M.Decoder, members: seq<Member>, cwd: string)
    requires WellFormedMembers(members)
  {
    && members != [] && cwd != ""
    && var front, m := members[..|members| - 1], members[|members| - 1];
       && CwdCount(front) == 0 && SpellsCwd(m.key)
       && m.value.Str? && |Quoted(m.value.chars)| <= 65536 && decode(Quoted(m.value.chars)) == cwd
  }

  /** The text, whatever follows, begins with an object whose first cwd key records the directory. */
  ghost predicate RecordsFirst(decode: M.Decoder, text: string, cwd: string) {
    exists lead, members :: OpensWith(text, lead, members) && IsFirstCwd(decode, members, cwd)
  }

  /** The members as far as the last one's key. */
  function UpToKey(lead: string, members: seq<Member>): string
    requires members != []
  {
    var front, m := members[..|members| - 1], members[|members| - 1];
    lead + "{" + RenderMembers(front) + Separator(|front|) + m.before + Quoted(m.key)
  }

  predicate OpensWithKeys(text: string, lead: string, members: seq<Member>) {
    AllWhitespace(lead) && members != [] && WellFormedMembers(members) && UpToKey(lead, members) <= text
  }

  /** The text, whatever follows, begins with an object in which a second key is cwd. */
  ghost predicate HasSecondKey(text: string) {
    exists lead, members :: OpensWithKeys(text, lead, members) && CwdCount(members) >= 2
  }

  // ----- bytes that find nothing

  /** Only a quote ends a key or a string value. */
  lemma QuietStep(decode: M.Decoder, s: M.Scan, b: Byte)
    requires b != QUOTE
    ensures M.Step(decode, s, b).cwd == "" && M.Step(decode, s, b).scan.ambiguous == s.ambiguous
  {
  }

  lemma {:induction false} QuietRun(decode: M.Decoder, s: M.Scan, text: string)
    requires forall i :: 0 <= i < |text| ==> text[i] != QUOTE
    ensures M.Run(decode, s, text).cwd == "" && M.Run(decode, s, text).scan.ambiguous == s.ambiguous
  {
    hide M.Step;
    if text != "" {
      var front := text[..|text| - 1];
      QuietRun(decode, s, front);
      QuietStep(decode, M.Run(decode, s, front).scan, text[|text| - 1]);
    }
  }

  lemma AmbiguousStep(decode: M.Decoder, s: M.Scan, b: Byte)
    requires s.ambiguous
    ensures M.Step(decode, s, b).scan.ambiguous
  {
  }

  lemma {:induction false} AmbiguousStays(decode: M.Decoder, s: M.Scan, text: string)
    requires s.ambiguous
    ensures M.Run(decode, s, text).scan.ambiguous
  {
    hide M.Step;
    if text != "" {
      var front := text[..|text| - 1];
      AmbiguousStays(decode, s, front);
      AmbiguousStep(decode, M.Run(decode, s, front).scan, text[|text| - 1]);
    }
  }

  /** What was found before stays found. */
  lemma RunFurther(decode: M.Decoder, front: string, text: string)
    requires front <= text
    ensures M.Run(decode, M.START, front).cwd != "" ==>
              M.Run(decode, M.START, text).cwd == M.Run(decode, M.START, front).cwd
    ensures M.Run(decode, M.START, front).scan.ambiguous ==> M.Run(decode, M.START, text).scan.ambiguous
  {
    hide M.Run;
    var rest := text[|front|..];
    assert front + rest == text;
    M.RunConcat(decode, M.START, front, rest);
    if M.Run(decode, M.START, front).scan.ambiguous {
      AmbiguousStays(decode, M.Run(decode, M.START, front).scan, rest);
    }
  }

  // ----- from the text to what is found

  /** The last member with null for its value. */
  function WithNull(members: seq<Member>): seq<Member>
    requires members != []
  {
    var m := members[|members| - 1];
    members[..|members| - 1] + [Member(m.before, m.key, "", "", Word("null"), "")]
  }

  lemma WithNullIsFine(lead: string, members: seq<Member>)
    requires members != [] && WellFormedMembers(members)
    ensures WellFormedMembers(WithNull(members)) && CwdCount(WithNull(members)) == CwdCount(members)
    ensures RenderDocument(Document(lead, WithNull(members), "", "")) == UpToKey(lead, members) + ":null}"
  {
    var front, m := members[..|members| - 1], members[|members| - 1];
    var n := Member(m.before, m.key, "", "", Word("null"), "");
    SnocMember(front, n);
    var all := WithNull(members);
    assert all == front + [n] && all[..|all| - 1] == front && all[|all| - 1] == n;
    assert RenderMember(n) == m.before + Quoted(m.key) + "" + ":" + "" + "null" + "";
    assert RenderValue(Obj(all, "")) == "{" + RenderMembers(all) + "" + "}";
    hide RenderMembers, Quoted, WellFormedMembers, CwdCount;
    NullPieces(lead, RenderMembers(front), Separator(|front|), m.before, Quoted(m.key));
  }

  lemma NullPieces(lead: string, front: string, sep: string, before: string, key: string)
    ensures lead + ("{" + (front + sep + (before + key + "" + ":" + "" + "null" + "")) + "" + "}") + ""
            == lead + "{" + front + sep + before + key + ":null}"
  {
    var all := before + key + "" + ":" + "" + "null" + "";
    assert all == before + key + ":null";
    assert lead + ("{" + (front + sep + (before + key + ":null")) + "" + "}") + ""
           == lead + "{" + front + sep + before + key + ":null}";
  }

  lemma SecondKeyIsSeen(decode: M.Decoder, text: string, lead: string, members: seq<Member>)
    requires OpensWithKeys(text, lead, members) && CwdCount(members) >= 2
    ensures M.Run(decode, M.START, text).scan.ambiguous
  {
    hide M.Run, M.Step, RenderMembers, UpToKey;
    var d := Document(lead, WithNull(members), "", "");
    WithNullIsFine(lead, members);
    assert WellFormedDocument(d);
    RunDocument(decode, d);
    var keys := UpToKey(lead, members);
    M.RunConcat(decode, M.START, keys, ":null}");
    QuietRun(decode, M.Run(decode, M.START, keys).scan, ":null}");
    RunFurther(decode, keys, text);
  }

  lemma FirstCwdIsRead(decode: M.Decoder, text: string, lead: string, members: seq<Member>, cwd: string)
    requires OpensWith(text, lead, members) && IsFirstCwd(decode, members, cwd)
    ensures M.Run(decode, M.START, text).cwd == cwd
  {
    hide M.Run, M.Step, RenderMembers;
    var d := Document(lead, members, "", "");
    assert WellFormedDocument(d);
    RunDocument(decode, d);
    var begun := lead + "{" + RenderMembers(members);
    assert RenderDocument(d) == begun + "}";
    M.RunConcat(decode, M.START, begun, "}");
    QuietRun(decode, M.Run(decode, M.START, begun).scan, "}");
    RunFurther(decode, begun, text);
  }

  // ----- from what is found to the text

  /** A value kept for its directory belongs to a top-level cwd key, and a key still equal to cwd is a top-level one. */
  predicate IsAtTop(s: M.Scan) {
    s.control.Open? ==>
      && (s.control.lexeme.TextString? && s.control.lexeme.isCwd ==> M.HoldsCwd(s.control.below, s.control.top))
      && (s.control.lexeme.KeyString? && s.control.lexeme.matched ==> s.control.below == [])
  }

  lemma BetweenAtTop(s: M.Scan, below: seq<M.Frame>, top: M.Frame, b: Byte)
    ensures IsAtTop(s.(control := M.StepBetween(below, top, b)))
    ensures IsAtTop(s.(control := M.FinishValue(below, top)))
  {
  }

  lemma NumberAtTop(s: M.Scan, below: seq<M.Frame>, top: M.Frame, n: M.NumberState, b: Byte)
    ensures IsAtTop(s.(control := M.EndNumber(below, top, n, b)))
  {
    hide M.StepBetween;
    var after := M.FinishValue(below, top);
    BetweenAtTop(s, below, top, b);
    if after.Open? {
      BetweenAtTop(s, after.below, after.top, b);
    }
  }

  lemma KeyAtTop(s: M.Scan, b: Byte)
    requires IsAtTop(s) && s.control.Open? && s.control.lexeme.KeyString?
    ensures IsAtTop(M.StepKey(s, b))
  {
    hide M.NextEscape;
  }

  lemma TextAtTop(decode: M.Decoder, s: M.Scan, b: Byte)
    requires IsAtTop(s) && s.control.Open? && s.control.lexeme.TextString?
    ensures IsAtTop(M.StepText(decode, s, b).scan)
  {
    hide M.NextEscape, M.Retain;
    BetweenAtTop(s, s.control.below, s.control.top, b);
    hide M.FinishValue;
  }

  lemma OpenAtTop(decode: M.Decoder, s: M.Scan, b: Byte)
    requires IsAtTop(s) && s.control.Open?
    ensures IsAtTop(M.StepOpen(decode, s, b).scan)
  {
    var below, top := s.control.below, s.control.top;
    BetweenAtTop(s, below, top, b);
    match s.control.lexeme {
      case KeyString(_, _, _) => KeyAtTop(s, b);
      case TextString(_, _, _, _) => TextAtTop(decode, s, b);
      case Number(n) => NumberAtTop(s, below, top, n, b);
      case _ =>
    }
    hide M.StepKey, M.StepText, M.StepBetween, M.FinishValue, M.EndNumber, M.NextNumber;
  }

  lemma StepAtTop(decode: M.Decoder, s: M.Scan, b: Byte)
    requires IsAtTop(s)
    ensures IsAtTop(M.Step(decode, s, b).scan)
  {
    hide M.StepOpen;
    if s.control.Open? {
      OpenAtTop(decode, s.(content := s.content || !IsWhitespace(b)), b);
    }
  }

  lemma {:induction false} RunAtTop(decode: M.Decoder, text: string)
    ensures IsAtTop(M.Run(decode, M.START, text).scan)
  {
    hide M.Step, IsAtTop;
    if text == "" {
      StartAtTop();
    } else {
      var front := text[..|text| - 1];
      RunAtTop(decode, front);
      StepAtTop(decode, M.Run(decode, M.START, front).scan, text[|text| - 1]);
    }
  }

  lemma StartAtTop()
    ensures IsAtTop(M.START)
  {
  }

  /** A directory is found where a cwd value ends. */
  lemma FoundAtEnd(decode: M.Decoder, s: M.Scan, b: Byte)
    requires M.Step(decode, s, b).cwd != ""
    ensures s.control.Open? && s.control.lexeme.TextString? && s.control.lexeme.isCwd
    ensures M.Step(decode, s, b).scan.control == M.FinishValue(s.control.below, s.control.top)
  {
  }

  /** The record is ambiguous where a second cwd key ends. */
  lemma DoubledAtEnd(decode: M.Decoder, s: M.Scan, b: Byte)
    requires M.Step(decode, s, b).scan.ambiguous && !s.ambiguous
    ensures s.control.Open? && s.control.lexeme.KeyString? && s.control.lexeme.escape == M.Plain
    ensures s.control.lexeme.matched && b == QUOTE
  {
  }

  lemma {:induction false} FirstMember(decode: M.Decoder, members: seq<Member>) returns (first: seq<Member>)
    requires WellFormedMembers(members) && CwdOf(decode, members) != ""
    ensures WellFormedMembers(first) && IsFirstCwd(decode, first, CwdOf(decode, members))
    ensures RenderMembers(first) <= RenderMembers(members)
  {
    hide Quoted, RenderMember, WellFormedChars;
    var front, m := members[..|members| - 1], members[|members| - 1];
    if CwdCount(front) > 0 {
      first := FirstMember(decode, front);
      SnocMember(front, m);
      assert front + [m] == members;
    } else {
      first := members;
    }
  }

  lemma SameLast(a: string, t: string, b: string, c: Byte)
    requires a + t == b + [c] && t != ""
    ensures t[|t| - 1] == c
  {
    assert (a + t)[|a + t| - 1] == t[|t| - 1];
  }

  lemma SameFront(a: string, b: string, c: Byte)
    requires a + [c] == b + [c]
    ensures a == b
  {
    assert (a + [c])[..|a|] == a && (b + [c])[..|b|] == b;
  }

  lemma Trailing(begun: string, pad: string, trail: string, text: string)
    requires AllWhitespace(trail) && begun + pad + "}" + trail == text + "}"
    ensures begun <= text
  {
    if trail != "" {
      SameLast(begun + pad + "}", trail, text, '}');
      assert false;
    }
    assert begun + pad + "}" + trail == begun + pad + "}";
    SameFront(begun + pad, text, '}');
  }

  /** Just after the end of a top-level cwd value the record could be closed. */
  lemma ClosesNow(decode: M.Decoder, text: string)
    requires var c := M.Run(decode, M.START, text).scan.control;
             c.Open? && c.below == [] && c.top.kind == '{' && c.top.phase == M.ObjectCommaOrEnd && c.lexeme.Between?
    ensures M.Run(decode, M.START, text + "}").scan.control == M.Complete
    ensures M.Run(decode, M.START, text + "}").cwd == M.Run(decode, M.START, text).cwd
  {
    M.RunSnoc(decode, M.START, text, '}');
    hide M.Run;
    assert text + ['}'] == text + "}";
  }

  lemma ValueEnds(decode: M.Decoder, front: string, b: Byte)
    requires M.Run(decode, M.START, front).cwd == "" && M.Run(decode, M.START, front + [b]).cwd != ""
    ensures var c := M.Run(decode, M.START, front + [b]).scan.control;
            c.Open? && c.below == [] && c.top.kind == '{' && c.top.phase == M.ObjectCommaOrEnd && c.lexeme.Between?
  {
    var s := M.Run(decode, M.START, front).scan;
    M.RunSnoc(decode, M.START, front, b);
    FoundAtEnd(decode, s, b);
    RunAtTop(decode, front);
    var x := RunGrows(decode, front);
    assert FrameFits(x.inner, s.control.top) && ExpectsValue(x.inner);
  }

  lemma {:induction false} FoundIsWritten(decode: M.Decoder, text: string)
    requires M.Run(decode, M.START, text).cwd != ""
    ensures RecordsFirst(decode, text, M.Run(decode, M.START, text).cwd)
  {
    hide M.Step;
    var cwd := M.Run(decode, M.START, text).cwd;
    var front, b := text[..|text| - 1], text[|text| - 1];
    assert front + [b] == text;
    if M.Run(decode, M.START, front).cwd != "" {
      FoundIsWritten(decode, front);
      RunFurther(decode, front, text);
      hide M.Run;
      var lead, members :| OpensWith(front, lead, members) && IsFirstCwd(decode, members, cwd);
      assert OpensWith(text, lead, members);
    } else {
      hide M.Run;
      ValueEnds(decode, front, b);
      ClosesNow(decode, text);
      ClosedIsWritten(decode, text, cwd);
    }
  }

  lemma DocumentOpens(d: Document, text: string, first: seq<Member>)
    requires WellFormedDocument(d) && RenderDocument(d) == text + "}"
    requires WellFormedMembers(first) && RenderMembers(first) <= RenderMembers(d.members)
    ensures OpensWith(text, d.lead, first)
  {
    hide RenderMembers, WellFormedMembers;
    var begun := d.lead + "{" + RenderMembers(d.members);
    assert RenderDocument(d) == begun + d.pad + "}" + d.trail;
    Trailing(begun, d.pad, d.trail, text);
    assert d.lead + "{" + RenderMembers(first) <= begun;
  }

  lemma ClosedIsWritten(decode: M.Decoder, text: string, cwd: string)
    requires M.Run(decode, M.START, text + "}").scan.control == M.Complete && cwd != ""
    requires M.Run(decode, M.START, text + "}").cwd == cwd
    ensures RecordsFirst(decode, text, cwd)
  {
    hide M.Run;
    AcceptsExactly(decode, text + "}");
    var d: Document :| WellFormedDocument(d) && RenderDocument(d) == text + "}" && CwdCount(d.members) <= 1;
    RunDocument(decode, d);
    hide RenderMembers, RenderDocument, CwdOf, CwdCount;
    var first := FirstMember(decode, d.members);
    DocumentOpens(d, text, first);
    hide IsFirstCwd, OpensWith;
    assert OpensWith(text, d.lead, first) && IsFirstCwd(decode, first, cwd);
  }

  /** The keys that were read when a second cwd key ends. */
  lemma KeyEnds(decode: M.Decoder, front: string) returns (lead: string, members: seq<Member>)
    requires var c := M.Run(decode, M.START, front).scan.control;
             && c.Open? && c.below == [] && c.lexeme.KeyString? && c.lexeme.escape == M.Plain
    ensures members != [] && OpensWithKeys(front + [QUOTE], lead, members)
    ensures UpToKey(lead, members) == front + [QUOTE]
  {
    hide M.Run;
    var x := RunGrows(decode, front);
    var chars := x.token.chars;
    lead := x.lead;
    assert x.outer == [] && RenderOuter(x.outer) == "";
    match x.inner
    case ObjStart(pad) =>
      members := [Member(pad, chars, "", "", Word("null"), "")];
      assert members[..0] == [];
      assert WellFormedMembers(members);
      assert UpToKey(lead, members) == lead + "{" + "" + "" + pad + ([QUOTE] + RenderChars(chars) + [QUOTE]);
      assert AllWhitespace(lead);
      assert RenderPrefix(x) == lead + "" + ("{" + pad) + ([QUOTE] + RenderChars(chars) + "");
      hide *;
      FirstKeyPieces(lead, pad, RenderChars(chars));
      OpensItself(front + [QUOTE], lead, members);
    case ObjNextKey(ms, pad) =>
      var m := Member(pad, chars, "", "", Word("null"), "");
      members := ms + [m];
      assert members[..|members| - 1] == ms && members[|members| - 1] == m;
      assert WellFormedMembers(members);
      assert UpToKey(lead, members)
             == lead + "{" + RenderMembers(ms) + "," + pad + ([QUOTE] + RenderChars(chars) + [QUOTE]);
      assert AllWhitespace(lead);
      assert RenderPrefix(x)
             == lead + "" + ("{" + RenderMembers(ms) + "," + pad) + ([QUOTE] + RenderChars(chars) + "");
      hide *;
      NextKeyPieces(lead, RenderMembers(ms), pad, RenderChars(chars));
      OpensItself(front + [QUOTE], lead, members);
  }

  lemma OpensItself(text: string, lead: string, members: seq<Member>)
    requires AllWhitespace(lead) && members != [] && WellFormedMembers(members) && UpToKey(lead, members) == text
    ensures OpensWithKeys(text, lead, members)
  {
  }

  lemma FirstKeyPieces(lead: string, pad: string, chars: string)
    ensures lead + "" + ("{" + pad) + ([QUOTE] + chars + "") + [QUOTE]
            == lead + "{" + "" + "" + pad + ([QUOTE] + chars + [QUOTE])
  {
  }

  lemma NextKeyPieces(lead: string, front: string, pad: string, chars: string)
    ensures lead + "" + ("{" + front + "," + pad) + ([QUOTE] + chars + "") + [QUOTE]
            == lead + "{" + front + "," + pad + ([QUOTE] + chars + [QUOTE])
  {
  }

  lemma {:induction false} DoubledIsWritten(decode: M.Decoder, text: string)
    requires M.Run(decode, M.START, text).scan.ambiguous
    ensures HasSecondKey(text)
  {
    hide M.Step;
    var front, b := text[..|text| - 1], text[|text| - 1];
    assert front + [b] == text;
    if M.Run(decode, M.START, front).scan.ambiguous {
      DoubledIsWritten(decode, front);
      hide M.Run;
      var lead, members :| OpensWithKeys(front, lead, members) && CwdCount(members) >= 2;
      assert OpensWithKeys(text, lead, members);
    } else {
      var s := M.Run(decode, M.START, front).scan;
      DoubledAtEnd(decode, s, b);
      RunAtTop(decode, front);
      hide M.Run;
      var lead, members := KeyEnds(decode, front);
      WithNullIsFine(lead, members);
      var d := Document(lead, WithNull(members), "", "");
      RunDocument(decode, d);
      RunFurther(decode, text, text + ":null}");
      assert OpensWithKeys(text, lead, members);
    }
  }

  // ----- both ways

  /** After any text the directory found is that of the first cwd key, if it has come to its end by then. */
  lemma CwdExactly(decode: M.Decoder, text: string, cwd: string)
    requires cwd != ""
    ensures M.Run(decode, M.START, text).cwd == cwd <==> RecordsFirst(decode, text, cwd)
  {
    hide M.Run;
    if M.Run(decode, M.START, text).cwd == cwd {
      FoundIsWritten(decode, text);
    }
    if RecordsFirst(decode, text, cwd) {
      var lead, members :| OpensWith(text, lead, members) && IsFirstCwd(decode, members, cwd);
      FirstCwdIsRead(decode, text, lead, members, cwd);
    }
  }

  /** After any text a record is ambiguous exactly when a second top-level cwd key has come to its end. */
  lemma AmbiguousExactly(decode: M.Decoder, text: string)
    ensures M.Run(decode, M.START, text).scan.ambiguous <==> HasSecondKey(text)
  {
    hide M.Run;
    if M.Run(decode, M.START, text).scan.ambiguous {
      DoubledIsWritten(decode, text);
    }
    if HasSecondKey(text) {
      var lead, members :| OpensWithKeys(text, lead, members) && CwdCount(members) >= 2;
      SecondKeyIsSeen(decode, text, lead, members);
    }
  }
}
