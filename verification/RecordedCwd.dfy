/** Reading the working directories recorded in one session file, record by record,
    through a reader that hands out the file in fragments. */
module RecordedCwd {
  import opened Wrappers
  import opened JsonBytes
  import opened JsonGrammar
  import opened JsonCompleteness
  import opened JsonTokens
  import opened JsonTheorems
  import opened CwdExtractor
  import M = CwdMachine

  /** How a read ended: at a newline, with the buffer full, at the end of the file, or with an error. */
  datatype ReadEnd = Newline | BufferFull | EndOfFile | Failure

  datatype Read = Read(fragment: string, end: ReadEnd)

  datatype ReadResult = ReadResult(cwds: seq<string>, unverifiableRecords: nat, firstUnverifiableLine: nat)

  /** How reading the file ended. */
  datatype ReadStatus = Done | Cancelled | ReadFailed

  predicate NoNewline(s: string) {
    forall i :: 0 <= i < |s| ==> s[i] != '\n'
  }

  /** What a buffered reader may return: a newline only at the end of a Newline read, and every
      file ends with exactly one EndOfFile or Failure. */
  predicate ReaderContract(script: seq<Read>) {
    && |script| > 0
    && (forall i :: 0 <= i < |script| ==>
          if script[i].end.Newline?
          then |script[i].fragment| > 0 && NoNewline(script[i].fragment[..|script[i].fragment| - 1])
               && script[i].fragment[|script[i].fragment| - 1] == '\n'
          else NoNewline(script[i].fragment))
    && (forall i :: 0 <= i < |script| ==>
          (i == |script| - 1 <==> script[i].end.EndOfFile? || script[i].end.Failure?))
  }

  function Content(script: seq<Read>): string {
    if script == [] then "" else Content(script[..|script| - 1]) + script[|script| - 1].fragment
  }

  /** The records of a text: its lines, each with its newline, and what follows the last newline. */
  function Records(text: string): (rs: seq<string>)
    ensures |rs| > 0
  {
    if text == "" then [""]
    else
      var before, b := Records(text[..|text| - 1]), text[|text| - 1];
      var grown := before[..|before| - 1] + [before[|before| - 1] + [b]];
      if b == '\n' then grown + [""] else grown
  }

  /** What a finished record adds: its directory unless ambiguous, and one unreadable record if it is that. */
  function Tally(r: ReadResult, o: M.Outcome, line: nat): ReadResult {
    var unverifiable := M.Unverifiable(o.scan, o.cwd != "");
    ReadResult(
      if o.cwd != "" && !o.scan.ambiguous then r.cwds + [o.cwd] else r.cwds,
      if unverifiable then r.unverifiableRecords + 1 else r.unverifiableRecords,
      if unverifiable && r.firstUnverifiableLine == 0 then line else r.firstUnverifiableLine)
  }

  const NOTHING := ReadResult([], 0, 0)

  function Summary(decode: M.Decoder, records: seq<string>): ReadResult {
    if records == [] then NOTHING
    else Tally(Summary(decode, records[..|records| - 1]), M.Run(decode, M.START, records[|records| - 1]), |records|)
  }

  lemma {:induction false} RecordsSnoc(text: string, b: Byte)
    ensures var before := Records(text);
            Records(text + [b])
            == before[..|before| - 1] + [before[|before| - 1] + [b]] + (if b == '\n' then [""] else [])
  {
    var all := text + [b];
    assert all[..|all| - 1] == text && all[|all| - 1] == b;
    var before := Records(text);
    var grown := before[..|before| - 1] + [before[|before| - 1] + [b]];
    assert grown + [] == grown;
  }

  lemma {:induction false} GrowLastRecord(text: string, fragment: string)
    requires NoNewline(fragment)
    ensures var rs := Records(text);
            Records(text + fragment) == rs[..|rs| - 1] + [rs[|rs| - 1] + fragment]
    decreases |fragment|
  {
    hide Records;
    var rs := Records(text);
    var last := rs[|rs| - 1];
    if fragment == "" {
      assert text + fragment == text && last + "" == last;
    } else {
      var front, b := fragment[..|fragment| - 1], fragment[|fragment| - 1];
      GrowLastRecord(text, front);
      RecordsSnoc(text + front, b);
      assert front + [b] == fragment;
      assert text + front + [b] == text + fragment && last + front + [b] == last + fragment;
      var before := rs[..|rs| - 1] + [last + front];
      assert before[..|before| - 1] == rs[..|rs| - 1];
    }
  }

  lemma GrowRecord(text: string, complete: seq<string>, current: string, fragment: string)
    requires Records(text) == complete + [current] && NoNewline(fragment)
    ensures Records(text + fragment) == complete + [current + fragment]
  {
    GrowLastRecord(text, fragment);
  }

  lemma EndRecord(text: string, complete: seq<string>, current: string, fragment: string)
    requires Records(text) == complete + [current]
    requires |fragment| > 0 && NoNewline(fragment[..|fragment| - 1]) && fragment[|fragment| - 1] == '\n'
    ensures Records(text + fragment) == complete + [current + fragment] + [""]
  {
    var front := fragment[..|fragment| - 1];
    GrowRecord(text, complete, current, front);
    NewlineEndsRecord(text + front, complete, current + front);
    assert fragment == front + ['\n'];
    hide Records;
    Associate(text, front, ['\n']);
    Associate(current, front, ['\n']);
  }

  lemma Associate(a: string, b: string, c: string)
    ensures a + b + c == a + (b + c)
  {
  }

  lemma NewlineEndsRecord(text: string, complete: seq<string>, current: string)
    requires Records(text) == complete + [current]
    ensures Records(text + ['\n']) == complete + [current + ['\n']] + [""]
  {
    hide Records;
    RecordsSnoc(text, '\n');
    assert (complete + [current])[..|complete|] == complete;
  }

  lemma SummarySnoc(decode: M.Decoder, complete: seq<string>, record: string)
    ensures Summary(decode, complete + [record])
            == Tally(Summary(decode, complete), M.Run(decode, M.START, record), |complete| + 1)
  {
    hide M.Run, Tally;
    assert (complete + [record])[..|complete|] == complete;
  }

  /** Reads the whole file. cancelledAt is the read before which the context is found cancelled, if any. */
  method ReadRecordedCwds(decode: M.Decoder, script: seq<Read>, cancelledAt: Option<nat>)
    returns (result: ReadResult, status: ReadStatus, ghost consumed: string)
    requires ReaderContract(script)
    ensures status == Done ==> consumed == Content(script) && result == Summary(decode, Records(Content(script)))
    ensures status != Done ==>
              && |consumed| <= |Content(script)| && consumed == Content(script)[..|consumed|]
              && result == Summary(decode, Records(consumed)[..|Records(consumed)| - 1])
    ensures status == Cancelled ==> cancelledAt.Some? && cancelledAt.value < |script|
    ensures status == Done <==>
              script[|script| - 1].end.EndOfFile?
              && (cancelledAt.None? || cancelledAt.value >= |script|)
  {
    hide M.Run, Records, Summary, Tally, Content, M.Unverifiable;
    RunNothing(decode, M.START);
    NothingRead(decode);
    var extractor := new CwdMetadataExtractor(decode);
    result := NOTHING;
    var recordCwd := "";
    var lineNumber := 1;
    consumed := "";
    ghost var complete: seq<string>, current := [], "";
    var i := 0;
    while true
      invariant 0 <= i < |script|
      invariant consumed == Content(script[..i]) && Records(consumed) == complete + [current]
      invariant cancelledAt.Some? ==> i <= cancelledAt.value
      invariant fresh(extractor) && Consistent(extractor.Now()) && extractor.decode == decode
      invariant M.Outcome(Abs(extractor.Now()), recordCwd) == M.Run(decode, M.START, current)
      invariant result == Summary(decode, complete) && lineNumber == |complete| + 1
      decreases |script| - i
    {
      if cancelledAt == Some(i) {
        ContentPrefix(script, i);
        assert (complete + [current])[..|complete|] == complete;
        return result, Cancelled, consumed;
      }
      var fragment, end := script[i].fragment, script[i].end;
      var cwd := extractor.Feed(fragment);
      if cwd != "" && recordCwd == "" {
        recordCwd := cwd;
      }
      M.RunConcat(decode, M.START, current, fragment);
      SnocContent(script, i);
      ghost var grown := current + fragment;
      match end {
        case Newline =>
          EndRecord(consumed, complete, current, fragment);
          result := FinishRecord(extractor, result, recordCwd, lineNumber);
          SummarySnoc(decode, complete, grown);
          complete, current := complete + [grown], "";
          RunNothing(decode, M.START);
          extractor.Reset();
          recordCwd := "";
          lineNumber := lineNumber + 1;
        case BufferFull =>
          GrowRecord(consumed, complete, current, fragment);
          current := grown;
        case EndOfFile =>
          GrowRecord(consumed, complete, current, fragment);
          result := FinishRecord(extractor, result, recordCwd, lineNumber);
          SummarySnoc(decode, complete, grown);
          assert script[..i + 1] == script;
          return result, Done, consumed + fragment;
        case Failure =>
          GrowRecord(consumed, complete, current, fragment);
          assert script[..i + 1] == script;
          assert (complete + [grown])[..|complete|] == complete;
          return result, ReadFailed, Content(script);
      }
      consumed := consumed + fragment;
      i := i + 1;
    }
  }

  lemma NothingRead(decode: M.Decoder)
    ensures Records("") == [] + [""] && Content([]) == "" && Summary(decode, []) == NOTHING
  {
  }

  lemma SnocContent(script: seq<Read>, i: nat)
    requires i < |script|
    ensures Content(script[..i + 1]) == Content(script[..i]) + script[i].fragment
  {
    assert script[..i + 1][..i] == script[..i];
  }

  lemma {:induction false} ContentPrefix(script: seq<Read>, i: nat)
    requires i <= |script|
    ensures |Content(script[..i])| <= |Content(script)|
            && Content(script)[..|Content(script[..i])|] == Content(script[..i])
    decreases |script|
  {
    if i == |script| {
      assert script[..i] == script;
    } else {
      ContentPrefix(script[..|script| - 1], i);
      assert script[..|script| - 1][..i] == script[..i];
    }
  }

  /** The end of a record: its directory is kept unless ambiguous, and it is counted when unreadable. */
  method FinishRecord(extractor: CwdMetadataExtractor, before: ReadResult, recordCwd: string, lineNumber: nat)
    returns (result: ReadResult)
    requires Consistent(extractor.Now())
    ensures result == Tally(before, M.Outcome(Abs(extractor.Now()), recordCwd), lineNumber)
  {
    result := before;
    if recordCwd != "" && !extractor.cwdAmbiguous {
      result := result.(cwds := result.cwds + [recordCwd]);
    }
    var unverifiable := extractor.UnverifiableRecord(recordCwd != "");
    if !unverifiable {
      return;
    }
    result := result.(unverifiableRecords := result.unverifiableRecords + 1);
    if result.firstUnverifiableLine == 0 {
      result := result.(firstUnverifiableLine := lineNumber);
    }
  }
}
