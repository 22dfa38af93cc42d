/** Every text of the grammar is read to its end, and what the machine then knows of the
    recorded directory is what the syntax tree says. */
module JsonCompleteness {
  import opened Wrappers
  import opened JsonBytes
  import opened JsonGrammar
  import opened JsonTokens
  import M = CwdMachine

  lemma {:induction false} RunSpace(decode: M.Decoder, s: M.Scan, space: string)
    requires AllWhitespace(space)
    requires s.control.Open? ==> s.control.lexeme == M.Between
    ensures M.Run(decode, s, space) == M.Outcome(s, "")
  {
    if space != "" {
      RunSpace(decode, s, space[..|space| - 1]);
    }
  }

  lemma {:induction false} RunBroken(decode: M.Decoder, s: M.Scan, text: string)
    requires s.control == M.Broken && s.content
    ensures M.Run(decode, s, text) == M.Outcome(s, "")
  {
    if text != "" {
      RunBroken(decode, s, text[..|text| - 1]);
    }
  }

  lemma RunThen(decode: M.Decoder, s: M.Scan, a: string, middle: M.Outcome, b: string, last: M.Outcome)
    requires M.Run(decode, s, a) == middle
    requires M.Run(decode, middle.scan, b) == last
    ensures M.Run(decode, s, a + b) == M.Outcome(last.scan, M.First(middle.cwd, last.cwd))
  {
    M.RunConcat(decode, s, a, b);
  }

  /** s is the settled state, or a number that becomes it on the next delimiter. */
  predicate Reads(s: M.Scan, settled: M.Scan) {
    s == settled
    || (&& s.control.Open? && s.control.lexeme.Number? && M.CanEnd(s.control.lexeme.state)
        && AwaitsValue(s.control.top.phase)
        && s.(control := M.FinishValue(s.control.below, s.control.top)) == settled)
  }

  predicate IsSettled(s: M.Scan) {
    s.control.Open? && s.control.lexeme == M.Between && s.content
  }

  lemma NumbersStopAtDelimiters(n: M.NumberState, b: Byte)
    requires IsDelimiter(b)
    ensures M.NextNumber(n, b).None?
  {
  }

  lemma StepDelimiter(decode: M.Decoder, s: M.Scan, settled: M.Scan, b: Byte)
    requires Reads(s, settled) && IsSettled(settled) && IsDelimiter(b)
    ensures M.Run(decode, s, [b]) == M.Run(decode, settled, [b])
  {
    RunOne(decode, s, b);
    RunOne(decode, settled, b);
    if s != settled {
      NumbersStopAtDelimiters(s.control.lexeme.state, b);
    }
  }

  /** Trailing whitespace keeps a value read. */
  lemma ReadsThenSpace(decode: M.Decoder, s: M.Scan, settled: M.Scan, space: string) returns (s1: M.Scan)
    requires Reads(s, settled) && IsSettled(settled) && AllWhitespace(space)
    ensures M.Run(decode, s, space) == M.Outcome(s1, "") && Reads(s1, settled)
  {
    hide M.Run, M.Step;
    if space == "" {
      s1 := s;
      RunNothing(decode, s);
    } else {
      s1 := settled;
      var first := [space[0]];
      StepDelimiter(decode, s, settled, space[0]);
      RunSpace(decode, settled, first);
      RunSpace(decode, settled, space[1..]);
      RunJoin(decode, s, first, settled, space[1..], M.Outcome(settled, ""));
      assert space == first + space[1..];
    }
  }

  // ----- how renderings divide

  lemma JoinPieces(front: string, last: string)
    ensures "" + "" + last == last && front + "," + last == front + ("," + last)
  {
  }

  lemma {:induction false} LastItem(items: seq<Item>)
    requires items != []
    ensures RenderItems(items)
            == var front, item := items[..|items| - 1], items[|items| - 1];
               if front == [] then RenderItem(item) else RenderItems(front) + ("," + RenderItem(item))
  {
    hide RenderItem;
    JoinPieces(RenderItems(items[..|items| - 1]), RenderItem(items[|items| - 1]));
  }

  lemma {:induction false} LastMember(members: seq<Member>)
    requires members != []
    ensures RenderMembers(members)
            == var front, m := members[..|members| - 1], members[|members| - 1];
               if front == [] then RenderMember(m) else RenderMembers(front) + ("," + RenderMember(m))
  {
    hide RenderMember;
    JoinPieces(RenderMembers(members[..|members| - 1]), RenderMember(members[|members| - 1]));
  }

  /** The member up to its value. */
  function MemberName(m: Member): string {
    m.before + Quoted(m.key) + m.mid + ":" + m.gap
  }

  /** The member after its key. */
  function MemberRest(m: Member): string {
    m.mid + ":" + m.gap + RenderValue(m.value) + m.after
  }

  lemma MemberText(m: Member)
    ensures RenderMember(m) == MemberName(m) + (RenderValue(m.value) + m.after)
    ensures RenderMember(m) == m.before + (Quoted(m.key) + MemberRest(m))
  {
    hide Quoted;
    var q, v := Quoted(m.key), RenderValue(m.value);
    assert m.before + q + m.mid + ":" + m.gap + v + m.after == m.before + (q + (m.mid + ":" + m.gap + v + m.after));
  }

  /** The record after its opening brace, up to the closing one. */
  function Body(d: Document): string {
    RenderMembers(d.members) + d.pad + "}"
  }

  lemma DocumentText(d: Document)
    ensures RenderDocument(d) == d.lead + ("{" + (Body(d) + d.trail))
  {
    var r := RenderMembers(d.members);
    assert d.lead + ("{" + r + d.pad + "}") + d.trail == d.lead + ("{" + (r + d.pad + "}" + d.trail));
  }

  // ----- values

  /** What a value contributes to the recorded directory. */
  function Spoken(decode: M.Decoder, below: seq<M.Frame>, top: M.Frame, v: Value): string {
    if v.Str? then Recorded(decode, M.HoldsCwd(below, top), v.chars) else ""
  }

  lemma SettledIsSettled(s: M.Scan, below: seq<M.Frame>, top: M.Frame)
    requires AwaitsValue(top.phase)
    ensures IsSettled(Settled(s, below, top))
  {
  }

  lemma {:induction false} RunValue(decode: M.Decoder, s: M.Scan, below: seq<M.Frame>, top: M.Frame, v: Value)
    returns (s1: M.Scan)
    requires s.control == M.Open(below, top, M.Between) && AwaitsValue(top.phase) && WellFormedValue(v)
    ensures M.Run(decode, s, RenderValue(v)) == M.Outcome(s1, Spoken(decode, below, top, v))
    ensures Reads(s1, Settled(s, below, top))
    decreases v, 0
  {
    hide M.Run, M.Step;
    match v
    case Word(text) =>
      RunWord(decode, s, below, top, text);
      s1 := Settled(s, below, top);
    case Num(n) =>
      RunNumber(decode, s, below, top, n);
      s1 := At(s, below, top, M.Number(NumberEnd(n)));
    case Str(chars) =>
      RunText(decode, s, below, top, chars);
      s1 := Settled(s, below, top);
    case Arr(items, pad) =>
      RunArray(decode, s, below, top, items, pad);
      s1 := Settled(s, below, top);
    case Obj(members, pad) =>
      RunObject(decode, s, below, top, members, pad);
      s1 := Settled(s, below, top);
  }

  const ARRAY := M.Frame('[', M.ArrayValueOrEnd, false)
  const OBJECT := M.Frame('{', M.ObjectKeyOrEnd, false)

  lemma OpensContainer(decode: M.Decoder, s: M.Scan, below: seq<M.Frame>, top: M.Frame, frame: M.Frame)
    requires s.control == M.Open(below, top, M.Between) && AwaitsValue(top.phase)
    requires frame == ARRAY || frame == OBJECT
    ensures M.Run(decode, s, [frame.kind]) == M.Outcome(At(s, below + [top], frame, M.Between), "")
  {
    hide M.Run, M.Step;
    FirstOfValue(decode, s, below, top, frame.kind);
  }

  /** The closing byte of a container that may close. */
  lemma ClosesContainer(decode: M.Decoder, s: M.Scan, below: seq<M.Frame>, top: M.Frame, inner: M.Frame, closing: Byte)
    requires s == At(s, below + [top], inner, M.Between)
    requires (inner.kind == '[' && closing == ']'
              && (inner.phase == M.ArrayValueOrEnd || inner.phase == M.ArrayCommaOrEnd))
             || (inner.kind == '{' && closing == '}'
                 && (inner.phase == M.ObjectKeyOrEnd || inner.phase == M.ObjectCommaOrEnd))
    ensures M.Run(decode, s, [closing]) == M.Outcome(Settled(s, below, top), "")
  {
    RunOne(decode, s, closing);
    assert (below + [top])[..|below|] == below;
  }

  /** A comma moves the container on to its next element. */
  lemma PassesComma(decode: M.Decoder, s: M.Scan, below: seq<M.Frame>, top: M.Frame, next: M.Phase)
    requires s == At(s, below, top, M.Between)
    requires (top.phase == M.ArrayCommaOrEnd && next == M.ArrayValue)
             || (top.phase == M.ObjectCommaOrEnd && next == M.ObjectKey)
    ensures M.Run(decode, s, ",") == M.Outcome(At(s, below, top.(phase := next), M.Between), "")
  {
    RunOne(decode, s, ',');
  }

  // ----- arrays

  lemma {:induction false} RunArray(decode: M.Decoder, s: M.Scan, below: seq<M.Frame>, top: M.Frame, items: seq<Item>,
                                    pad: string)
    requires s.control == M.Open(below, top, M.Between) && AwaitsValue(top.phase) && WellFormedValue(Arr(items, pad))
    ensures M.Run(decode, s, RenderValue(Arr(items, pad))) == M.Outcome(Settled(s, below, top), "")
    decreases items, 2
  {
    hide M.Run, M.Step;
    var s1 := At(s, below + [top], ARRAY, M.Between);
    var last := M.Outcome(Settled(s, below, top), "");
    OpensContainer(decode, s, below, top, ARRAY);
    if items == [] {
      RunSpace(decode, s1, pad);
      ClosesContainer(decode, s1, below, top, ARRAY, ']');
      RunJoin(decode, s1, pad, s1, "]", last);
      RunJoin(decode, s, "[", s1, pad + "]", last);
      assert RenderValue(Arr(items, pad)) == "[" + (pad + "]");
    } else {
      var s2 := RunItems(decode, s1, below + [top], items);
      var s3 := At(s, below + [top], ARRAY.(phase := M.ArrayCommaOrEnd), M.Between);
      StepDelimiter(decode, s2, s3, ']');
      ClosesContainer(decode, s3, below, top, ARRAY.(phase := M.ArrayCommaOrEnd), ']');
      RunJoin(decode, s1, RenderItems(items), s2, "]", last);
      RunJoin(decode, s, "[", s1, RenderItems(items) + "]", last);
      assert RenderValue(Arr(items, pad)) == "[" + (RenderItems(items) + "]");
    }
  }

  lemma {:induction false} RunItems(decode: M.Decoder, s: M.Scan, below: seq<M.Frame>, items: seq<Item>)
    returns (s1: M.Scan)
    requires s == At(s, below, ARRAY, M.Between) && below != [] && WellFormedItems(items) && items != []
    ensures M.Run(decode, s, RenderItems(items)) == M.Outcome(s1, "")
    ensures Reads(s1, At(s, below, ARRAY.(phase := M.ArrayCommaOrEnd), M.Between))
    decreases items, 1
  {
    hide M.Run, M.Step;
    var front, item := items[..|items| - 1], items[|items| - 1];
    if front == [] {
      s1 := RunItem(decode, s, below, ARRAY, item);
      LastItem(items);
    } else {
      var s2 := RunItems(decode, s, below, front);
      var settled := At(s, below, ARRAY.(phase := M.ArrayCommaOrEnd), M.Between);
      var s3 := At(s, below, ARRAY.(phase := M.ArrayValue), M.Between);
      StepDelimiter(decode, s2, settled, ',');
      PassesComma(decode, settled, below, ARRAY.(phase := M.ArrayCommaOrEnd), M.ArrayValue);
      s1 := RunItem(decode, s3, below, ARRAY.(phase := M.ArrayValue), item);
      RunJoin(decode, s2, ",", s3, RenderItem(item), M.Outcome(s1, ""));
      RunJoin(decode, s, RenderItems(front), s2, "," + RenderItem(item), M.Outcome(s1, ""));
      LastItem(items);
    }
  }

  lemma {:induction false} RunItem(decode: M.Decoder, s: M.Scan, below: seq<M.Frame>, top: M.Frame, item: Item)
    returns (s1: M.Scan)
    requires s == At(s, below, top, M.Between) && below != [] && AwaitsValue(top.phase)
    requires WellFormedPadding(item) && WellFormedValue(item.value)
    ensures M.Run(decode, s, RenderItem(item)) == M.Outcome(s1, "")
    ensures Reads(s1, Settled(s, below, top))
    decreases item, 1
  {
    hide M.Run, M.Step;
    RunSpace(decode, s, item.before);
    var s2 := RunValue(decode, s, below, top, item.value);
    SettledIsSettled(s, below, top);
    s1 := ReadsThenSpace(decode, s2, Settled(s, below, top), item.after);
    RunJoin(decode, s2, "", s2, item.after, M.Outcome(s1, "")) by {
      RunNothing(decode, s2);
      assert "" + item.after == item.after;
    }
    RunJoin(decode, s, RenderValue(item.value), s2, item.after, M.Outcome(s1, ""));
    RunJoin(decode, s, item.before, s, RenderValue(item.value) + item.after, M.Outcome(s1, ""));
    assert RenderItem(item) == item.before + (RenderValue(item.value) + item.after);
  }

  // ----- nested objects

  lemma {:induction false} RunObject(decode: M.Decoder, s: M.Scan, below: seq<M.Frame>, top: M.Frame,
                                     members: seq<Member>, pad: string)
    requires s.control == M.Open(below, top, M.Between) && AwaitsValue(top.phase) && WellFormedValue(Obj(members, pad))
    ensures M.Run(decode, s, RenderValue(Obj(members, pad))) == M.Outcome(Settled(s, below, top), "")
    decreases members, 2
  {
    hide M.Run, M.Step;
    var s1 := At(s, below + [top], OBJECT, M.Between);
    var last := M.Outcome(Settled(s, below, top), "");
    OpensContainer(decode, s, below, top, OBJECT);
    if members == [] {
      RunSpace(decode, s1, pad);
      ClosesContainer(decode, s1, below, top, OBJECT, '}');
      RunJoin(decode, s1, pad, s1, "}", last);
      RunJoin(decode, s, "{", s1, pad + "}", last);
      assert RenderValue(Obj(members, pad)) == "{" + (pad + "}");
    } else {
      var s2 := RunMembers(decode, s1, below + [top], members);
      var s3 := At(s, below + [top], OBJECT.(phase := M.ObjectCommaOrEnd), M.Between);
      StepDelimiter(decode, s2, s3, '}');
      ClosesContainer(decode, s3, below, top, OBJECT.(phase := M.ObjectCommaOrEnd), '}');
      RunJoin(decode, s1, RenderMembers(members), s2, "}", last);
      RunJoin(decode, s, "{", s1, RenderMembers(members) + "}", last);
      assert RenderValue(Obj(members, pad)) == "{" + (RenderMembers(members) + "}");
    }
  }

  /** Inside a nested object no key is the cwd. */
  lemma NestedKey(s: M.Scan, below: seq<M.Frame>, top: M.Frame, m: Member)
    requires s == At(s, below, top, M.Between) && below != [] && WellFormedChars(m.key) && !top.keyIsCwd
    ensures AfterKey(s, below, top, m.key).control.Open?
    ensures MemberEnd(s, below, top, m) == At(s, below, top.(phase := M.ObjectCommaOrEnd), M.Between)
  {
  }

  lemma {:induction false} RunMembers(decode: M.Decoder, s: M.Scan, below: seq<M.Frame>, members: seq<Member>)
    returns (s1: M.Scan)
    requires s == At(s, below, OBJECT, M.Between) && below != [] && WellFormedMembers(members) && members != []
    ensures M.Run(decode, s, RenderMembers(members)) == M.Outcome(s1, "")
    ensures Reads(s1, At(s, below, OBJECT.(phase := M.ObjectCommaOrEnd), M.Between))
    decreases members, 1
  {
    hide M.Run, M.Step, AfterKey, MemberEnd;
    var front, m := members[..|members| - 1], members[|members| - 1];
    if front == [] {
      NestedKey(s, below, OBJECT, m);
      s1 := RunMember(decode, s, below, OBJECT, m);
      LastMember(members);
    } else {
      var next := OBJECT.(phase := M.ObjectKey);
      var s2 := RunMembers(decode, s, below, front);
      var s3 := At(s, below, next, M.Between);
      NextMember(decode, s2, s, below);
      NestedKey(s3, below, next, m);
      s1 := RunMember(decode, s3, below, next, m);
      RunJoin(decode, s2, ",", s3, RenderMember(m), M.Outcome(s1, ""));
      RunJoin(decode, s, RenderMembers(front), s2, "," + RenderMember(m), M.Outcome(s1, ""));
      LastMember(members);
    }
  }

  /** The comma after a member. */
  lemma NextMember(decode: M.Decoder, s1: M.Scan, s: M.Scan, below: seq<M.Frame>)
    requires Reads(s1, At(s, below, OBJECT.(phase := M.ObjectCommaOrEnd), M.Between))
    ensures M.Run(decode, s1, ",") == M.Outcome(At(s, below, OBJECT.(phase := M.ObjectKey), M.Between), "")
  {
    hide M.Run, M.Step;
    var settled := At(s, below, OBJECT.(phase := M.ObjectCommaOrEnd), M.Between);
    StepDelimiter(decode, s1, settled, ',');
    PassesComma(decode, settled, below, OBJECT.(phase := M.ObjectCommaOrEnd), M.ObjectKey);
  }

  /** The state after a member whose key did not break the record. */
  function MemberEnd(s: M.Scan, below: seq<M.Frame>, top: M.Frame, m: Member): M.Scan
    requires WellFormedChars(m.key)
  {
    AfterKey(s, below, top, m.key).(control :=
                                    M.Open(below, top.(phase := M.ObjectCommaOrEnd, keyIsCwd := false), M.Between))
  }

  lemma PassesColon(decode: M.Decoder, s: M.Scan, below: seq<M.Frame>, top: M.Frame)
    requires s == At(s, below, top, M.Between) && top.phase == M.ObjectColon
    ensures M.Run(decode, s, ":") == M.Outcome(At(s, below, top.(phase := M.ObjectValue), M.Between), "")
  {
    RunOne(decode, s, ':');
  }

  lemma {:induction false} RunMember(decode: M.Decoder, s: M.Scan, below: seq<M.Frame>, top: M.Frame, m: Member)
    returns (s1: M.Scan)
    requires s == At(s, below, top, M.Between) && AwaitsKey(top.phase) && top.kind == '{' && !top.keyIsCwd
    requires WellFormedLabel(m) && WellFormedValue(m.value)
    requires AfterKey(s, below, top, m.key).control.Open?
    ensures M.Run(decode, s, RenderMember(m))
            == M.Outcome(s1, if below == [] && SpellsCwd(m.key) && m.value.Str?
                         then Recorded(decode, true, m.value.chars) else "")
    ensures Reads(s1, MemberEnd(s, below, top, m))
    decreases m, 1
  {
    hide M.Run, M.Step;
    var k := AfterKey(s, below, top, m.key);
    var s2 := RunMemberName(decode, s, below, top, m);
    var s3 := RunValue(decode, s2, below, s2.control.top, m.value);
    s1 := ReadsThenSpace(decode, s3, MemberEnd(s, below, top, m), m.after);
    var spoken := Spoken(decode, below, s2.control.top, m.value);
    RunThen(decode, s2, RenderValue(m.value), M.Outcome(s3, spoken), m.after, M.Outcome(s1, ""));
    RunJoin(decode, s, MemberName(m), s2, RenderValue(m.value) + m.after, M.Outcome(s1, spoken));
    MemberText(m);
  }

  lemma RunMemberName(decode: M.Decoder, s: M.Scan, below: seq<M.Frame>, top: M.Frame, m: Member) returns (s1: M.Scan)
    requires s == At(s, below, top, M.Between) && AwaitsKey(top.phase) && top.kind == '{' && !top.keyIsCwd
    requires WellFormedLabel(m) && AfterKey(s, below, top, m.key).control.Open?
    ensures M.Run(decode, s, MemberName(m)) == M.Outcome(s1, "")
    ensures var k := AfterKey(s, below, top, m.key);
            s1 == k.(control := M.Open(below, k.control.top.(phase := M.ObjectValue), M.Between))
  {
    hide M.Run, M.Step;
    var k := AfterKey(s, below, top, m.key);
    s1 := At(k, below, k.control.top.(phase := M.ObjectValue), M.Between);
    RunSpace(decode, s, m.before);
    RunKey(decode, s, below, top, m.key);
    RunSpace(decode, k, m.mid);
    PassesColon(decode, k, below, k.control.top);
    RunSpace(decode, s1, m.gap);
    var last := M.Outcome(s1, "");
    RunJoin(decode, k, ":", s1, m.gap, last);
    RunJoin(decode, k, m.mid, k, ":" + m.gap, last);
    RunJoin(decode, s, Quoted(m.key), k, m.mid + (":" + m.gap), last);
    RunJoin(decode, s, m.before, s, Quoted(m.key) + (m.mid + (":" + m.gap)), last);
    assert MemberName(m) == m.before + (Quoted(m.key) + (m.mid + (":" + m.gap)));
  }

  // ----- the record

  /** The directory recorded by the top-level members: that of the first one keyed cwd. */
  function CwdOf(decode: M.Decoder, members: seq<Member>): string
    requires WellFormedMembers(members)
  {
    if members == [] then ""
    else
      var front, m := members[..|members| - 1], members[|members| - 1];
      if CwdCount(front) > 0 then CwdOf(decode, front)
      else if SpellsCwd(m.key) && m.value.Str? then Recorded(decode, true, m.value.chars)
      else ""
  }

  /** What is known after reading top-level members of which `count` are keyed cwd. */
  function TopScan(count: nat): M.Scan {
    M.Scan(
      if count >= 2 then M.Broken else M.Open([], OBJECT.(phase := M.ObjectCommaOrEnd), M.Between),
      count >= 1, count >= 2, true)
  }

  const OPENED := M.Scan(M.Open([], OBJECT, M.Between), false, false, true)

  lemma {:induction false} RunTopMembers(decode: M.Decoder, members: seq<Member>) returns (s1: M.Scan)
    requires WellFormedMembers(members) && members != []
    ensures M.Run(decode, OPENED, RenderMembers(members)) == M.Outcome(s1, CwdOf(decode, members))
    ensures Reads(s1, TopScan(CwdCount(members)))
  {
    hide M.Run, M.Step, AfterKey, MemberEnd;
    var front, m := members[..|members| - 1], members[|members| - 1];
    if front == [] {
      TopKey(OPENED, OBJECT, 0, m);
      s1 := RunMember(decode, OPENED, [], OBJECT, m);
      LastMember(members);
    } else {
      var s2 := RunTopMembers(decode, front);
      var text := "," + RenderMember(m);
      var last := RunLaterMember(decode, s2, CwdCount(front), m);
      s1 := last.scan;
      RunThen(decode, OPENED, RenderMembers(front), M.Outcome(s2, CwdOf(decode, front)), text, last);
      LastMember(members);
      NoCwdYet(decode, front);
    }
  }

  lemma {:induction false} NoCwdYet(decode: M.Decoder, members: seq<Member>)
    requires WellFormedMembers(members)
    ensures CwdCount(members) == 0 ==> CwdOf(decode, members) == ""
  {
    if members != [] {
      NoCwdYet(decode, members[..|members| - 1]);
    }
  }

  /** What a member after `count` members keyed cwd adds: nothing once a cwd key was read. */
  function Adds(decode: M.Decoder, count: nat, m: Member): string
    requires WellFormedChars(m.key)
  {
    if count == 0 && SpellsCwd(m.key) && m.value.Str? then Recorded(decode, true, m.value.chars) else ""
  }

  function Counted(count: nat, m: Member): nat
    requires WellFormedChars(m.key)
  {
    count + (if SpellsCwd(m.key) then 1 else 0)
  }

  lemma TopKey(s: M.Scan, top: M.Frame, count: nat, m: Member)
    requires count <= 1 && WellFormedChars(m.key) && (top == OBJECT || top == OBJECT.(phase := M.ObjectKey))
    requires s == At(TopScan(count), [], top, M.Between)
    ensures Counted(count, m) >= 2 ==> AfterKey(s, [], top, m.key) == TopScan(Counted(count, m))
    ensures Counted(count, m) < 2 ==>
              AfterKey(s, [], top, m.key).control.Open? && MemberEnd(s, [], top, m) == TopScan(Counted(count, m))
  {
  }

  lemma RunLaterMember(decode: M.Decoder, s: M.Scan, count: nat, m: Member) returns (last: M.Outcome)
    requires Reads(s, TopScan(count)) && WellFormedLabel(m) && WellFormedValue(m.value)
    ensures M.Run(decode, s, "," + RenderMember(m)) == last
    ensures last.cwd == Adds(decode, count, m) && Reads(last.scan, TopScan(Counted(count, m)))
  {
    hide M.Run, M.Step, AfterKey, MemberEnd;
    if count >= 2 {
      RunBroken(decode, s, "," + RenderMember(m));
      last := M.Outcome(s, "");
    } else {
      var next := OBJECT.(phase := M.ObjectKey);
      var s1 := At(TopScan(count), [], next, M.Between);
      NextMember(decode, s, TopScan(count), []);
      TopKey(s1, next, count, m);
      if Counted(count, m) >= 2 {
        RunDuplicate(decode, s1, next, m);
        last := M.Outcome(TopScan(2), "");
      } else {
        var s2 := RunMember(decode, s1, [], next, m);
        last := M.Outcome(s2, Adds(decode, count, m));
      }
      RunJoin(decode, s, ",", s1, RenderMember(m), last);
    }
  }

  /** A second cwd key breaks the record where it ends. */
  lemma RunDuplicate(decode: M.Decoder, s: M.Scan, top: M.Frame, m: Member)
    requires s == At(s, [], top, M.Between) && AwaitsKey(top.phase) && WellFormedLabel(m)
    requires AfterKey(s, [], top, m.key).control == M.Broken
    ensures M.Run(decode, s, RenderMember(m)) == M.Outcome(AfterKey(s, [], top, m.key), "")
  {
    hide M.Run, M.Step;
    var k := AfterKey(s, [], top, m.key);
    var rest := MemberRest(m);
    RunSpace(decode, s, m.before);
    RunKey(decode, s, [], top, m.key);
    RunBroken(decode, k, rest);
    RunJoin(decode, s, Quoted(m.key), k, rest, M.Outcome(k, ""));
    RunJoin(decode, s, m.before, s, Quoted(m.key) + rest, M.Outcome(k, ""));
    MemberText(m);
  }

  /** The machine's verdict on a record of the grammar: complete with at most one cwd key, else broken. */
  function Verdict(count: nat): M.Scan {
    M.Scan(if count >= 2 then M.Broken else M.Complete, count >= 1, count >= 2, true)
  }

  lemma OpensRecord(decode: M.Decoder)
    ensures M.Run(decode, M.START, "{") == M.Outcome(OPENED, "")
  {
    RunOne(decode, M.START, '{');
  }

  lemma ClosesRecord(decode: M.Decoder, s: M.Scan, count: nat)
    requires Reads(s, TopScan(count))
    ensures M.Run(decode, s, "}") == M.Outcome(Verdict(count), "")
  {
    if count >= 2 {
      RunBroken(decode, s, "}");
    } else {
      StepDelimiter(decode, s, TopScan(count), '}');
      RunOne(decode, TopScan(count), '}');
    }
  }

  lemma TrailingSpace(decode: M.Decoder, count: nat, space: string)
    requires AllWhitespace(space)
    ensures M.Run(decode, Verdict(count), space) == M.Outcome(Verdict(count), "")
  {
    RunSpace(decode, Verdict(count), space);
  }

  lemma RunRecordBody(decode: M.Decoder, members: seq<Member>, pad: string)
    requires WellFormedValue(Obj(members, pad))
    ensures M.Run(decode, OPENED, RenderMembers(members) + pad + "}")
            == M.Outcome(Verdict(CwdCount(members)), CwdOf(decode, members))
  {
    hide M.Run, M.Step;
    if members == [] {
      RunSpace(decode, OPENED, pad);
      ClosesEmptyRecord(decode);
      RunJoin(decode, OPENED, pad, OPENED, "}", M.Outcome(Verdict(0), ""));
      assert RenderMembers(members) + pad + "}" == pad + "}";
    } else {
      var s1 := RunTopMembers(decode, members);
      ClosesRecord(decode, s1, CwdCount(members));
      RunThen(decode, OPENED, RenderMembers(members), M.Outcome(s1, CwdOf(decode, members)), "}",
              M.Outcome(Verdict(CwdCount(members)), ""));
      assert RenderMembers(members) + pad + "}" == RenderMembers(members) + "}";
    }
  }

  lemma ClosesEmptyRecord(decode: M.Decoder)
    ensures M.Run(decode, OPENED, "}") == M.Outcome(Verdict(0), "")
  {
    RunOne(decode, OPENED, '}');
  }

  /** Reading a record of the grammar from a fresh start ends in its verdict, with the directory its tree records. */
  lemma RunDocument(decode: M.Decoder, d: Document)
    requires WellFormedDocument(d)
    ensures M.Run(decode, M.START, RenderDocument(d))
            == M.Outcome(Verdict(CwdCount(d.members)), CwdOf(decode, d.members))
  {
    hide M.Run, M.Step;
    var body := Body(d);
    var count := CwdCount(d.members);
    var done := M.Outcome(Verdict(count), CwdOf(decode, d.members));
    RunSpace(decode, M.START, d.lead);
    OpensRecord(decode);
    RunRecordBody(decode, d.members, d.pad);
    TrailingSpace(decode, count, d.trail);
    RunThen(decode, OPENED, body, done, d.trail, M.Outcome(Verdict(count), ""));
    RunJoin(decode, M.START, "{", OPENED, body + d.trail, done);
    RunJoin(decode, M.START, d.lead, M.START, "{" + (body + d.trail), done);
    DocumentText(d);
  }
}
