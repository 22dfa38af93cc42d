/** What the summary of a session file says about its records. */
module RecordedCwdTheorems {
  import opened JsonBytes
  import opened JsonGrammar
  import opened JsonCompleteness
  import opened JsonTheorems
  import opened CwdReading
  import opened RecordedCwd
  import M = CwdMachine

  /** The record is not blank, and not a readable record either. */
  ghost predicate IsUnreadable(decode: M.Decoder, record: string) {
    !AllWhitespace(record) && !IsReadable(decode, record)
  }

  ghost function UnreadableCount(decode: M.Decoder, records: seq<string>): nat {
    if records == [] then 0
    else UnreadableCount(decode, records[..|records| - 1])
         + (if IsUnreadable(decode, records[|records| - 1]) then 1 else 0)
  }

  /** The summary counts exactly the unreadable records, whatever the fragments were. */
  lemma {:induction false} CountsUnreadable(decode: M.Decoder, records: seq<string>)
    ensures Summary(decode, records).unverifiableRecords == UnreadableCount(decode, records)
  {
    hide M.Run, IsUnreadable, IsReadable;
    if records != [] {
      CountsUnreadable(decode, records[..|records| - 1]);
      var record := records[|records| - 1];
      UnverifiableExactly(decode, record);
      assert IsUnreadable(decode, record) <==> !AllWhitespace(record) && !IsReadable(decode, record) by {
        UnreadableMeans(decode, record);
      }
    }
  }

  lemma UnreadableMeans(decode: M.Decoder, record: string)
    ensures IsUnreadable(decode, record) <==> !AllWhitespace(record) && !IsReadable(decode, record)
  {
    hide IsReadable;
  }

  lemma {:induction false} NoneUnreadable(decode: M.Decoder, records: seq<string>, i: nat)
    requires UnreadableCount(decode, records) == 0 && i < |records|
    ensures !IsUnreadable(decode, records[i])
  {
    hide IsUnreadable;
    if i < |records| - 1 {
      NoneUnreadable(decode, records[..|records| - 1], i);
    }
  }

  lemma {:induction false} AllReadable(decode: M.Decoder, records: seq<string>)
    requires forall i :: 0 <= i < |records| ==> !IsUnreadable(decode, records[i])
    ensures UnreadableCount(decode, records) == 0
  {
    hide IsUnreadable;
    if records != [] {
      AllReadable(decode, records[..|records| - 1]);
    }
  }

  /** The record is one object whose only cwd key records the directory. */
  ghost predicate RecordsDirectory(decode: M.Decoder, record: string, cwd: string) {
    exists d: Document ::
      && WellFormedDocument(d) && RenderDocument(d) == record
      && CwdCount(d.members) == 1 && CwdOf(decode, d.members) == cwd && cwd != ""
  }

  /** The directory recorded by a readable record is kept. */
  lemma {:induction false} KeepsDirectories(decode: M.Decoder, records: seq<string>, i: nat, cwd: string)
    requires i < |records| && RecordsDirectory(decode, records[i], cwd)
    ensures cwd in Summary(decode, records).cwds
  {
    hide M.Run, RecordsDirectory, IsReadable, M.Unverifiable;
    var last := |records| - 1;
    if i < last {
      KeepsDirectories(decode, records[..last], i, cwd);
    } else {
      DirectoryReported(decode, records[i], cwd);
    }
  }

  lemma DirectoryReported(decode: M.Decoder, record: string, cwd: string)
    requires RecordsDirectory(decode, record, cwd)
    ensures var o := M.Run(decode, M.START, record); o.cwd == cwd && cwd != "" && !o.scan.ambiguous
  {
    hide M.Run;
    var d: Document :| WellFormedDocument(d) && RenderDocument(d) == record
      && CwdCount(d.members) == 1 && CwdOf(decode, d.members) == cwd && cwd != "";
    RunDocument(decode, d);
  }

  /** When no record is unreadable, every directory kept comes from a record that records it. */
  lemma {:induction false} OnlyDirectories(decode: M.Decoder, records: seq<string>, cwd: string) returns (i: nat)
    requires UnreadableCount(decode, records) == 0 && cwd in Summary(decode, records).cwds
    ensures i < |records| && RecordsDirectory(decode, records[i], cwd)
  {
    hide M.Run, RecordsDirectory, IsUnreadable, M.Unverifiable;
    var last := |records| - 1;
    var front := Summary(decode, records[..last]);
    if cwd in front.cwds {
      i := OnlyDirectories(decode, records[..last], cwd);
    } else {
      i := last;
      NoneUnreadable(decode, records, last);
      ReportedDirectory(decode, records[last], cwd);
    }
  }

  lemma ReportedDirectory(decode: M.Decoder, record: string, cwd: string)
    requires !IsUnreadable(decode, record) && M.Run(decode, M.START, record).cwd == cwd && cwd != ""
    ensures RecordsDirectory(decode, record, cwd)
  {
    hide M.Run;
    if AllWhitespace(record) {
      RunSpace(decode, M.START, record);
      assert false;
    } else {
      var d: Document :| WellFormedDocument(d) && RenderDocument(d) == record
        && (CwdCount(d.members) == 0 || (CwdCount(d.members) == 1 && CwdOf(decode, d.members) != ""));
      RunDocument(decode, d);
      NoCwdYet(decode, d.members);
    }
  }

  // ----- every record, readable or not

  /** What one record is worth: the directory of its first cwd key, if that came to its end, unless a second cwd key
      did too. Nothing is asked of what else is in the record. */
  ghost predicate Contributes(decode: M.Decoder, record: string, cwd: string) {
    RecordsFirst(decode, record, cwd) && !HasSecondKey(record)
  }

  ghost function Contribution(decode: M.Decoder, record: string): (r: seq<string>)
    ensures |r| <= 1 && forall cwd :: cwd in r ==> Contributes(decode, record, cwd)
    ensures r == [] ==> forall cwd :: !Contributes(decode, record, cwd)
  {
    if cwd :| Contributes(decode, record, cwd) then [cwd] else []
  }

  ghost function Directories(decode: M.Decoder, records: seq<string>): seq<string> {
    if records == [] then []
    else Directories(decode, records[..|records| - 1]) + Contribution(decode, records[|records| - 1])
  }

  lemma RunContributes(decode: M.Decoder, record: string)
    ensures var o := M.Run(decode, M.START, record);
            Contribution(decode, record) == if o.cwd != "" && !o.scan.ambiguous then [o.cwd] else []
  {
    hide M.Run, RecordsFirst, HasSecondKey;
    var o := M.Run(decode, M.START, record);
    AmbiguousExactly(decode, record);
    if o.cwd != "" {
      CwdExactly(decode, record, o.cwd);
    }
    assert o.cwd != "" && !o.scan.ambiguous ==> Contributes(decode, record, o.cwd);
    var r := Contribution(decode, record);
    if r != [] {
      assert r[0] in r;
      NoEmptyDirectory(decode, record, r[0]);
      CwdExactly(decode, record, r[0]);
      assert r == [r[0]];
    }
  }

  lemma NoEmptyDirectory(decode: M.Decoder, record: string, cwd: string)
    requires RecordsFirst(decode, record, cwd)
    ensures cwd != ""
  {
  }

  /** The directories of a file are, in order, what its records are worth one by one, broken and truncated ones
      included. */
  lemma {:induction false} DirectoriesExactly(decode: M.Decoder, records: seq<string>)
    ensures Summary(decode, records).cwds == Directories(decode, records)
  {
    hide M.Run, Contribution, M.Unverifiable;
    if records != [] {
      DirectoriesExactly(decode, records[..|records| - 1]);
      RunContributes(decode, records[|records| - 1]);
    }
  }

  /** A record with two cwd keys is worth nothing, whatever they say. */
  lemma DoubledRecordsAreIgnored(decode: M.Decoder, records: seq<string>, d: Document)
    requires WellFormedDocument(d) && CwdCount(d.members) >= 2
    ensures Summary(decode, records + [RenderDocument(d)]).cwds == Summary(decode, records).cwds
  {
    hide M.Run, M.Unverifiable;
    var record := RenderDocument(d);
    SummarySnoc(decode, records, record);
    RunDocument(decode, d);
  }

  /** The line reported is that of the first unreadable record, or zero when there is none. */
  lemma {:induction false} FirstUnreadableLine(decode: M.Decoder, records: seq<string>)
    ensures var line := Summary(decode, records).firstUnverifiableLine;
            && line <= |records|
            && (line == 0 <==> forall i :: 0 <= i < |records| ==> !IsUnreadable(decode, records[i]))
            && (line > 0 ==> IsUnreadable(decode, records[line - 1])
                             && forall i :: 0 <= i < line - 1 ==> !IsUnreadable(decode, records[i]))
  {
    hide M.Run, IsReadable, M.Unverifiable;
    if records != [] {
      var front, record := records[..|records| - 1], records[|records| - 1];
      FirstUnreadableLine(decode, front);
      UnverifiableExactly(decode, record);
      assert forall i :: 0 <= i < |front| ==> front[i] == records[i];
    }
  }

  // ----- lines

  predicate IsLine(record: string) {
    record != "" && NoNewline(record[..|record| - 1]) && record[|record| - 1] == '\n'
  }

  function Joined(records: seq<string>): string {
    if records == [] then "" else Joined(records[..|records| - 1]) + records[|records| - 1]
  }

  lemma {:induction false} RecordsJoin(text: string)
    ensures Records(text) != [] && Joined(Records(text)) == text
  {
    if text == "" {
      assert Joined([""]) == Joined([""][..0]) + "";
    } else {
      var front, b := text[..|text| - 1], text[|text| - 1];
      RecordsJoin(front);
      assert front + [b] == text;
      RecordsSnoc(front, b);
      GrownIsJoined(Records(front), b);
      hide Joined, Records;
      var before := Records(front);
      var grown := before[..|before| - 1] + [before[|before| - 1] + [b]];
      assert grown + [] == grown;
    }
  }

  /** The records of a text are its lines, each with its only newline at its end, and then the rest. */
  lemma {:induction false} RecordsAreLines(text: string)
    ensures var rs := Records(text);
            && Joined(rs) == text && rs != [] && NoNewline(rs[|rs| - 1])
            && forall i :: 0 <= i < |rs| - 1 ==> IsLine(rs[i])
  {
    RecordsJoin(text);
    hide Joined;
    if text != "" {
      var front, b := text[..|text| - 1], text[|text| - 1];
      RecordsAreLines(front);
      assert front + [b] == text;
      RecordsSnoc(front, b);
      hide Records;
      var before := Records(front);
      GrownLine(before[|before| - 1], b);
    }
  }

  lemma GrownLine(record: string, b: Byte)
    requires NoNewline(record)
    ensures b == '\n' ==> IsLine(record + [b])
    ensures b != '\n' ==> NoNewline(record + [b])
  {
    assert (record + [b])[..|record|] == record;
  }

  /** One more character at the end of the last record, and perhaps an empty record after it. */
  lemma GrownIsJoined(before: seq<string>, b: Byte)
    requires before != []
    ensures var grown := before[..|before| - 1] + [before[|before| - 1] + [b]];
            Joined(grown) == Joined(before) + [b] && Joined(grown + [""]) == Joined(before) + [b]
  {
    var grown := before[..|before| - 1] + [before[|before| - 1] + [b]];
    assert grown[..|grown| - 1] == before[..|before| - 1];
    assert Joined(grown) == Joined(before[..|before| - 1]) + (before[|before| - 1] + [b]);
    assert (grown + [""])[..|grown|] == grown;
  }
}
