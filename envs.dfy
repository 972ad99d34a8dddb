/**
 * The environment query of jupyterlab_genv/genv/envs.py: every query runs
 * `genv exec envs <command>`, and `ps` reads one CSV row per environment,
 * whose last field lists the environment's process ids separated by spaces.
 */
module Envs {
  import opened Wrappers
  import opened Text
  import opened CliOutput

  /** An environment as `ps` reports it; the creation time is not kept. */
  datatype EnvInfo = EnvInfo(eid: string, user: string, name: string, pids: seq<nat>)

  const Prefix := "exec envs "

  /** `exec`: the `genv` command line of an environment query. */
  function Command(command: string): string {
    Prefix + command
  }

  /** The query `ps` runs. */
  function PsCommand(): string {
    Command("ps --format csv --no-header --timestamp")
  }

  function Fields(line: string): seq<string> {
    Split(line, {','})
  }

  /**
   * One row of `ps`: `eid, user, name, created, pids = line.split(',')`, then
   * the pids as `[int(pid) for pid in pids.split(' ') if len(pid)]`.
   */
  function Row(line: string): (r: Result<EnvInfo, ParseError>)
    ensures |Fields(line)| != 5 ==> r == Err(FieldCount(5, |Fields(line)|))
    ensures |Fields(line)| == 5 ==>
      var f := Fields(line);
      && (r.Ok? <==> IntList(f[4], ' ').Ok?)
      && (r.Ok? ==> r.value == EnvInfo(f[0], f[1], f[2], IntList(f[4], ' ').value))
      && (r.Err? ==> r.error == IntList(f[4], ' ').error)
  {
    var fields := Fields(line);
    if |fields| != 5 then Err(FieldCount(5, |fields|))
    else match IntList(fields[4], ' ')
      case Err(e) => Err(e)
      case Ok(pids) => Ok(EnvInfo(fields[0], fields[1], fields[2], pids))
  }

  /** A row as `genv envs ps` prints it. */
  datatype PsRow = PsRow(eid: string, user: string, name: string, created: string, pids: seq<nat>)

  /** The text of a row: the fields joined with commas, the pids with spaces. */
  function RowText(row: PsRow): string {
    Join([row.eid, row.user, row.name, row.created, Join(Numerals(row.pids), ' ')], ',')
  }

  /** Round trip: a row printed from comma-free fields and a pid list reads back as that environment. */
  lemma RowOfFields(eid: string, user: string, name: string, created: string, pids: seq<nat>)
    requires NoneOf(eid, {','}) && NoneOf(user, {','}) && NoneOf(name, {','}) && NoneOf(created, {','})
    ensures Row(RowText(PsRow(eid, user, name, created, pids))) == Ok(EnvInfo(eid, user, name, pids))
  {
    var numerals := Numerals(pids);
    forall i | 0 <= i < |numerals| ensures NoneOf(numerals[i], {','}) {
      assert AllDigits(numerals[i]);
    }
    JoinNoneOf(numerals, ' ', {','});
    var fields := [eid, user, name, created, Join(numerals, ' ')];
    SplitJoin(fields, ',', {','});
    IntListOfJoin(pids, ' ');
  }

  /**
   * Round trip for a whole output: rows of plain fields, printed one per
   * line, are read back as one record per row, in order; with `Ps`'s
   * contract, `Ps` of that output is `Ok` of those records.
   */
  lemma PsOutputRows(rows: seq<PsRow>)
    requires forall i :: 0 <= i < |rows| ==>
      Plain(rows[i].eid) && Plain(rows[i].user) && Plain(rows[i].name) && Plain(rows[i].created)
    ensures var lines := Lines(Unlines(seq(|rows|, i requires 0 <= i < |rows| => RowText(rows[i]))));
      && |lines| == |rows|
      && forall i :: 0 <= i < |rows| ==>
           Row(lines[i]) == Ok(EnvInfo(rows[i].eid, rows[i].user, rows[i].name, rows[i].pids))
  {
    var texts := seq(|rows|, i requires 0 <= i < |rows| => RowText(rows[i]));
    forall i | 0 <= i < |rows|
      ensures texts[i] != "" && NoneOf(texts[i], LineBreaks)
      ensures Row(texts[i]) == Ok(EnvInfo(rows[i].eid, rows[i].user, rows[i].name, rows[i].pids))
    {
      var r := rows[i];
      var numerals := Numerals(r.pids);
      forall k | 0 <= k < |numerals| ensures NoneOf(numerals[k], LineBreaks) {
        NumeralIsPlain(r.pids[k]);
      }
      JoinNoneOf(numerals, ' ', LineBreaks);
      CsvRowIsLine([r.eid, r.user, r.name, r.created, Join(numerals, ' ')]);
      RowOfFields(r.eid, r.user, r.name, r.created, r.pids);
    }
    LinesOfUnlines(texts);
  }

  /**
   * `ps`: runs `PsCommand` through the command runner `exec`; one record
   * per non-empty line of its output, in order, or the
   * error of the first line that is not a well-formed row.
   */
  method Ps(exec: string -> string) returns (r: Result<seq<EnvInfo>, ParseError>)
    ensures var lines := Lines(exec(PsCommand()));
      && (r.Ok? <==> forall i :: 0 <= i < |lines| ==> Row(lines[i]).Ok?)
      && (r.Ok? ==> |r.value| == |lines| && forall i :: 0 <= i < |lines| ==> Row(lines[i]) == Ok(r.value[i]))
      && (r.Err? ==> exists k :: 0 <= k < |lines| && Row(lines[k]) == Err(r.error) &&
                                (forall i :: 0 <= i < k ==> Row(lines[i]).Ok?))
  {
    var stdout := exec(PsCommand());
    var lines := Lines(stdout);
    var infos: seq<EnvInfo> := [];
    for k := 0 to |lines|
      invariant |infos| == k
      invariant forall i :: 0 <= i < k ==> Row(lines[i]) == Ok(infos[i])
    {
      var row := Row(lines[k]);
      if row.Err? {
        return Err(row.error);
      }
      infos := infos + [row.value];
    }
    return Ok(infos);
  }

  /** The pid list `12  7` holds an empty piece, which is skipped. */
  lemma PidsSkipEmpty()
    ensures IntList("12  7", ' ') == Ok([12, 7])
  {
    assert NatToString(12) == "12" && NatToString(7) == "7";
    assert Join(["12", "", "7"], ' ') == "12  7";
    SplitJoin(["12", "", "7"], ' ', {' '});
    assert NonEmpty(["12", "", "7"]) == ["12", "7"] == Numerals([12, 7]);
    IntsOfNumerals([12, 7]);
  }

  /** The pid list `12 x` is rejected at `x`. */
  lemma PidsReject()
    ensures IntList("12 x", ' ') == Err(NotAnInt("x"))
  {
    assert Join(["12", "x"], ' ') == "12 x";
    SplitJoin(["12", "x"], ' ', {' '});
    assert NonEmpty(["12", "x"]) == ["12", "x"];
    assert ParseNat("12").Some? && !IsDigit('x');
  }
}
