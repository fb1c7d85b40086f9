/**
 * Reading an append-only JSONL log: `readEvalJsonlRecords` of evals/metrics.mjs and
 * `readJsonlRecords` and the run tagging of evals/ledger.mjs.  JSON parsing is a parameter.
 */
module JsonlLog {
  import opened Collections
  import opened Whitespace

  /** The first newline, or the length of the text. */
  function Newline(text: string): (i: nat)
    ensures i <= |text| && (i < |text| ==> text[i] == '\n') && '\n' !in text[..i]
  {
    if text == [] || text[0] == '\n' then 0 else
    var i := Newline(text[1..]) + 1;
    assert text[..i] == [text[0]] + text[1..][..i - 1];
    i
  }

  /** A carriage return before a newline belongs to the line break. */
  function StripReturn(line: string): string
  {
    if line != [] && line[|line| - 1] == '\r' then line[..|line| - 1] else line
  }

  /** Splitting at `\r?\n`. */
  function Lines(text: string): (lines: seq<string>)
    ensures lines != []
    ensures text != [] && text[|text| - 1] == '\n' ==> lines[|lines| - 1] == []
    decreases |text|
  {
    var i := Newline(text);
    if i == |text| then assert text[..i] == text; [text]
    else [StripReturn(text[..i])] + Lines(text[i + 1..])
  }

  predicate NotBlank(line: string) { !IsBlank(line) }

  /** The committed lines: those a newline ends, without the blank ones. */
  function Committed(text: string): seq<string>
    decreases |text|
  {
    var i := Newline(text);
    if i == |text| then [] else
    var line := StripReturn(text[..i]);
    if NotBlank(line) then [line] + Committed(text[i + 1..]) else Committed(text[i + 1..])
  }

  /** The lines a reader parses among the first `n`: not the blank ones, and not the last. */
  function ReadBefore(lines: seq<string>, n: nat): seq<string>
    requires n <= |lines| && lines != []
  {
    Filter(NotBlank, lines[..if n < |lines| then n else |lines| - 1])
  }

  lemma {:induction false} CommittedIsRead(text: string)
    ensures Committed(text) == ReadBefore(Lines(text), |Lines(text)|)
    decreases |text|
  {
    var i := Newline(text);
    if i < |text| {
      var line, lines := StripReturn(text[..i]), Lines(text[i + 1..]);
      CommittedIsRead(text[i + 1..]);
      ReadCons(line, lines);
    }
  }

  lemma ReadCons(line: string, lines: seq<string>)
    requires lines != []
    ensures ReadBefore([line] + lines, |lines| + 1)
      == if NotBlank(line) then [line] + ReadBefore(lines, |lines|) else ReadBefore(lines, |lines|)
  {
    assert ([line] + lines)[..|lines|] == [line] + lines[..|lines| - 1];
    FilterCons(NotBlank, line, lines[..|lines| - 1]);
  }

  lemma ReadNext(lines: seq<string>, i: nat)
    requires i < |lines|
    ensures ReadBefore(lines, i + 1)
      == if i + 1 < |lines| && NotBlank(lines[i]) then ReadBefore(lines, i) + [lines[i]] else ReadBefore(lines, i)
  {
    assert lines[..i + 1] == lines[..i] + [lines[i]];
    FilterAppend(NotBlank, lines[..i], [lines[i]]);
  }

  lemma ReadPrefix(lines: seq<string>, n: nat)
    requires n <= |lines| && lines != []
    ensures ReadBefore(lines, n) <= ReadBefore(lines, |lines|)
  {
    var m := if n < |lines| then n else |lines| - 1;
    assert lines[..|lines| - 1] == lines[..m] + lines[m..|lines| - 1];
    FilterAppend(NotBlank, lines[..m], lines[m..|lines| - 1]);
  }

  /** Parsing every line, or failing on the first that does not parse. */
  function ParseAll<T>(parse: string -> Option<T>, lines: seq<string>): Option<seq<T>>
  {
    if lines == [] then Some([]) else
    var before := ParseAll(parse, lines[..|lines| - 1]);
    var last := parse(lines[|lines| - 1]);
    if before.None? || last.None? then None else Some(before.value + [last.value])
  }

  lemma ParseNext<T>(parse: string -> Option<T>, lines: seq<string>, line: string)
    ensures ParseAll(parse, lines + [line])
      == if ParseAll(parse, lines).None? || parse(line).None? then None else Some(ParseAll(parse, lines).value + [parse(line).value])
  {
    assert (lines + [line])[..|lines|] == lines;
  }

  lemma {:induction false} ParseFails<T>(parse: string -> Option<T>, lines: seq<string>, more: seq<string>)
    requires lines <= more && ParseAll(parse, lines).None?
    ensures ParseAll(parse, more).None?
    decreases |more|
  {
    if |lines| < |more| {
      ParseFails(parse, lines, more[..|more| - 1]);
    } else {
      assert lines == more;
    }
  }

  /** A line that does not parse fails the whole log. */
  lemma OneFails<T>(parse: string -> Option<T>, lines: seq<string>, index: nat)
    requires index + 1 < |lines| && NotBlank(lines[index]) && parse(lines[index]).None?
    ensures ParseAll(parse, ReadBefore(lines, |lines|)).None?
  {
    ReadNext(lines, index);
    ParseNext(parse, ReadBefore(lines, index), lines[index]);
    ReadPrefix(lines, index + 1);
    ParseFails(parse, ReadBefore(lines, index + 1), ReadBefore(lines, |lines|));
  }

  method ReadRecords<T>(text: string, parse: string -> Option<T>) returns (r: Option<seq<T>>)
    ensures r == ParseAll(parse, Committed(text))
  {
    var lines := Lines(text);
    CommittedIsRead(text);
    var records: seq<T> := [];
    var terminated := text != [] && text[|text| - 1] == '\n';
    for index := 0 to |lines|
      invariant ParseAll(parse, ReadBefore(lines, index)) == Some(records)
    {
      ReadNext(lines, index);
      if IsBlank(lines[index]) {
        continue;
      }
      if index == |lines| - 1 && !terminated {
        continue;
      }
      var parsed := parse(lines[index]);
      ParseNext(parse, ReadBefore(lines, index), lines[index]);
      if parsed.None? {
        OneFails(parse, lines, index);
        return None;
      }
      records := records + [parsed.value];
    }
    r := Some(records);
  }

  // ----- torn logs

  /** A record as a writer may append it: one line that is not blank. */
  predicate IsRecord(line: string) { '\n' !in line && !IsBlank(line) }

  function Log(records: seq<string>): string
  {
    if records == [] then [] else records[0] + ['\n'] + Log(records[1..])
  }

  /** How many records lie, newline included, within the first `cut` characters. */
  function Whole(records: seq<string>, cut: nat): (n: nat)
    ensures n <= |records|
  {
    if records == [] || cut < |records[0]| + 1 then 0 else 1 + Whole(records[1..], cut - |records[0]| - 1)
  }

  lemma {:induction false} WholeIsExact(records: seq<string>, cut: nat, n: nat)
    requires n <= |records|
    ensures n <= Whole(records, cut) <==> |Log(records[..n])| <= cut
  {
    if n > 0 {
      assert records[..n][1..] == records[1..][..n - 1];
      if cut >= |records[0]| + 1 {
        WholeIsExact(records[1..], cut - |records[0]| - 1, n - 1);
      }
    }
  }

  lemma NewlineAfter(line: string, rest: string)
    requires '\n' !in line
    ensures Newline(line + ['\n'] + rest) == |line| && Newline(line) == |line|
  {
    var text := line + ['\n'] + rest;
    assert text[|line|] == '\n' && forall j | 0 <= j < |line| :: text[j] == line[j];
  }

  lemma StripKeepsRecord(line: string)
    requires IsRecord(line)
    ensures NotBlank(StripReturn(line))
  {
    var stripped := StripReturn(line);
    BlankIsAllSpace(line);
    BlankIsAllSpace(stripped);
    if AllSpace(stripped) {
      assert AllSpace(line) by {
        forall i | 0 <= i < |line| ensures IsSpace(line[i]) {
          assert i < |stripped| ==> line[i] == stripped[i];
        }
      }
    }
  }

  lemma LogCut(records: seq<string>, cut: nat)
    requires records != [] && cut <= |Log(records)|
    ensures var r := records[0]; var rest := Log(records[1..]);
      if cut < |r| + 1 then Log(records)[..cut] == r[..cut]
      else cut - |r| - 1 <= |rest| && Log(records)[..cut] == r + ['\n'] + rest[..cut - |r| - 1]
  {
  }

  lemma CommittedCons(r: string, rest: string)
    requires IsRecord(r)
    ensures Committed(r + ['\n'] + rest) == [StripReturn(r)] + Committed(rest)
  {
    var text := r + ['\n'] + rest;
    NewlineAfter(r, rest);
    StripKeepsRecord(r);
    assert text[..|r|] == r && text[|r| + 1..] == rest;
  }

  lemma CommittedTorn(line: string)
    requires '\n' !in line
    ensures Committed(line) == []
  {
    NewlineAfter(line, []);
  }

  lemma FirstRecords(records: seq<string>, cut: nat)
    requires records != [] && cut >= |records[0]| + 1
    ensures Map(StripReturn, records[..Whole(records, cut)])
      == [StripReturn(records[0])] + Map(StripReturn, records[1..][..Whole(records[1..], cut - |records[0]| - 1)])
  {
  }

  /**
   * A log cut at any character reads as exactly the records whose newline survived: a prefix,
   * and never a torn record.
   */
  lemma {:induction false} TornTail(records: seq<string>, cut: nat)
    requires (forall i | 0 <= i < |records| :: IsRecord(records[i])) && cut <= |Log(records)|
    ensures Committed(Log(records)[..cut]) == Map(StripReturn, records[..Whole(records, cut)])
  {
    if records == [] {
      CommittedTorn([]);
    } else if cut < |records[0]| + 1 {
      LogCut(records, cut);
      assert IsRecord(records[0]);
      CommittedTorn(records[0][..cut]);
    } else {
      var r, rest := records[0], records[1..];
      var next := cut - |r| - 1;
      assert IsRecord(r);
      calc {
        Committed(Log(records)[..cut]);
        { LogCut(records, cut); }
        Committed(r + ['\n'] + Log(rest)[..next]);
        { CommittedCons(r, Log(rest)[..next]); }
        [StripReturn(r)] + Committed(Log(rest)[..next]);
        { TornTail(rest, next); }
        [StripReturn(r)] + Map(StripReturn, rest[..Whole(rest, next)]);
        { FirstRecords(records, cut); }
        Map(StripReturn, records[..Whole(records, cut)]);
      }
    }
  }

  lemma MapStripped(records: seq<string>)
    requires forall i | 0 <= i < |records| :: StripReturn(records[i]) == records[i]
    ensures Map(StripReturn, records) == records
  {
  }

  /** With records that do not end in a carriage return the whole log reads back exactly. */
  lemma LogReadsBack(records: seq<string>)
    requires forall i | 0 <= i < |records| :: IsRecord(records[i]) && StripReturn(records[i]) == records[i]
    ensures Committed(Log(records)) == records
  {
    var all := |Log(records)|;
    TornTail(records, all);
    assert Log(records)[..all] == Log(records);
    assert records[..|records|] == records;
    WholeIsExact(records, all, |records|);
    MapStripped(records);
  }

  // ----- run tags

  function Dot(name: string): (i: int)
    ensures -1 <= i < |name| && (i >= 0 ==> name[i] == '.' && '.' !in name[..i]) && (i == -1 ==> '.' !in name)
  {
    if name == [] then -1 else if name[0] == '.' then 0 else
    var i := Dot(name[1..]);
    assert i >= 0 ==> name[..i + 1] == [name[0]] + name[1..][..i];
    if i < 0 then -1 else i + 1
  }

  /** The text before the first dot; without one, everything but the last character. */
  function RunTag(name: string): string
  {
    var i := Dot(name);
    if i >= 0 then name[..i] else if name == [] then [] else name[..|name| - 1]
  }

  /** A record is tagged with its own run exactly when the run id has no dot. */
  lemma TagIsRunId(runId: string, suffix: string)
    requires suffix != [] && suffix[0] == '.'
    ensures RunTag(runId + suffix) == runId <==> '.' !in runId
  {
    var name := runId + suffix;
    var i := Dot(name);
    assert name[|runId|] == '.' && forall j | 0 <= j < |runId| :: name[j] == runId[j];
    assert i >= 0 && i <= |runId|;
    if '.' in runId {
      var j :| 0 <= j < |runId| && runId[j] == '.';
      assert name[j] == '.';
    } else {
      assert name[..i] == runId;
    }
  }

  /** One carriage return before a newline belongs to the line break, and nothing else does. */
  lemma StripExact(line: string)
    ensures StripReturn(line + ['\r']) == line
    ensures (line == [] || line[|line| - 1] != '\r') ==> StripReturn(line) == line
  {
    assert (line + ['\r'])[..|line|] == line;
  }

  function WithReturn(record: string): string { record + ['\r'] }

  /** Logs with carriage returns read back as well. */
  lemma ReturnedLogReadsBack(records: seq<string>)
    requires forall i | 0 <= i < |records| :: IsRecord(records[i])
    ensures Committed(Log(Map(WithReturn, records))) == records
  {
    var written := Map(WithReturn, records);
    var all := |Log(written)|;
    forall i | 0 <= i < |written| ensures IsRecord(written[i]) && StripReturn(written[i]) == records[i] {
      StripExact(records[i]);
      StaysRecord(records[i]);
    }
    TornTail(written, all);
    WholeIsExact(written, all, |written|);
    assert Log(written)[..all] == Log(written) && written[..|written|] == written;
    assert Map(StripReturn, written) == records;
  }

  lemma StaysRecord(record: string)
    requires IsRecord(record)
    ensures IsRecord(WithReturn(record))
  {
    BlankIsAllSpace(record);
    BlankIsAllSpace(WithReturn(record));
    var i :| 0 <= i < |record| && !IsSpace(record[i]);
    assert WithReturn(record)[i] == record[i];
  }
}
