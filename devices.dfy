/**
 * The device queries of jupyterlab_genv/genv/devices.py: every query runs
 * `genv devices <command>`; `ps` reads one CSV row per device, and `find`
 * reads the comma-separated indices of the devices attached to an
 * environment. The command runner is a foreign call: `Ps` is given it as
 * a parameter, and `Find` reads the text it prints for `FindCommand`.
 */
module Devices {
  import opened Wrappers
  import opened Text
  import opened CliOutput

  /** A device as `ps` reports it: the eid of the environment using it and that environment's name. */
  datatype DeviceInfo = DeviceInfo(eid: string, env: string)

  const Prefix := "devices "

  /** `_exec`: the `genv` command line of a device query. */
  function Command(command: string): string {
    Prefix + command
  }

  /** The query `ps` runs. */
  function PsCommand(): string {
    Command("ps --format csv --no-header --timestamp")
  }

  /** The query `find` runs for environment `eid`. */
  function FindCommand(eid: string): string {
    Command("find --eid " + eid)
  }

  /** A space-free eid is passed to the command line as one word of its own, the last. */
  lemma FindCommandWords(eid: string)
    requires NoneOf(eid, {' '})
    ensures Split(FindCommand(eid), {' '}) == ["devices", "find", "--eid", eid]
  {
    var words := ["devices", "find", "--eid", eid];
    assert Join(words[3..], ' ') == eid;
    assert Join(words[2..], ' ') == "--eid" + [' '] + eid;
    assert Join(words[1..], ' ') == "find" + [' '] + ("--eid" + [' '] + eid);
    assert FindCommand(eid) == Join(words, ' ');
    SplitJoin(words, ' ', {' '});
  }

  function Fields(line: string): seq<string> {
    Split(line, {','})
  }

  /** One row of `ps`: `id, eid, env, attached = line.split(',')`, then `int(id)`, whose value is discarded. */
  function Row(line: string): (r: Result<DeviceInfo, ParseError>)
    ensures r.Ok? <==> |Fields(line)| == 4 && ParseNat(Fields(line)[0]).Some?
    ensures r.Ok? ==> r.value == DeviceInfo(Fields(line)[1], Fields(line)[2])
    ensures |Fields(line)| != 4 ==> r == Err(FieldCount(4, |Fields(line)|))
    ensures |Fields(line)| == 4 && r.Err? ==> r.error == NotAnInt(Fields(line)[0])
  {
    var fields := Fields(line);
    if |fields| != 4 then Err(FieldCount(4, |fields|))
    else match Int(fields[0])
      case Err(e) => Err(e)
      case Ok(_) => Ok(DeviceInfo(fields[1], fields[2]))
  }

  /** A row as `genv devices ps` prints it. */
  datatype PsRow = PsRow(index: nat, eid: string, env: string, attached: string)

  function RowText(row: PsRow): string {
    Join([NatToString(row.index), row.eid, row.env, row.attached], ',')
  }

  /** Round trip: a row printed from an index and comma-free fields reads back as its eid and env. */
  lemma RowOfFields(index: nat, eid: string, env: string, attached: string)
    requires NoneOf(eid, {','}) && NoneOf(env, {','}) && NoneOf(attached, {','})
    ensures Row(RowText(PsRow(index, eid, env, attached))) == Ok(DeviceInfo(eid, env))
  {
    var fields := [NatToString(index), eid, env, attached];
    assert NoneOf(fields[0], {','});
    SplitJoin(fields, ',', {','});
    ParseNatToString(index);
  }

  /**
   * Round trip for a whole output: rows of plain fields, printed one per
   * line, are read back as one record per row, in order; with `Ps`'s
   * contract, `Ps` of that output is `Ok` of those records.
   */
  lemma PsOutputRows(rows: seq<PsRow>)
    requires forall i :: 0 <= i < |rows| ==> Plain(rows[i].eid) && Plain(rows[i].env) && Plain(rows[i].attached)
    ensures var lines := Lines(Unlines(seq(|rows|, i requires 0 <= i < |rows| => RowText(rows[i]))));
      && |lines| == |rows|
      && forall i :: 0 <= i < |rows| ==> Row(lines[i]) == Ok(DeviceInfo(rows[i].eid, rows[i].env))
  {
    var texts := seq(|rows|, i requires 0 <= i < |rows| => RowText(rows[i]));
    forall i | 0 <= i < |rows|
      ensures texts[i] != "" && NoneOf(texts[i], LineBreaks)
      ensures Row(texts[i]) == Ok(DeviceInfo(rows[i].eid, rows[i].env))
    {
      var r := rows[i];
      NumeralIsPlain(r.index);
      CsvRowIsLine([NatToString(r.index), r.eid, r.env, r.attached]);
      RowOfFields(r.index, r.eid, r.env, r.attached);
    }
    LinesOfUnlines(texts);
  }

  /**
   * `ps`: runs `PsCommand` through the command runner `exec`; one record
   * per non-empty line of its output, in order, or the
   * error of the first line that is not a well-formed row.
   */
  method Ps(exec: string -> string) returns (r: Result<seq<DeviceInfo>, ParseError>)
    ensures var lines := Lines(exec(PsCommand()));
      && (r.Ok? <==> forall i :: 0 <= i < |lines| ==> Row(lines[i]).Ok?)
      && (r.Ok? ==> |r.value| == |lines| && forall i :: 0 <= i < |lines| ==> Row(lines[i]) == Ok(r.value[i]))
      && (r.Err? ==> exists k :: 0 <= k < |lines| && Row(lines[k]) == Err(r.error) &&
                                (forall i :: 0 <= i < k ==> Row(lines[i]).Ok?))
  {
    var stdout := exec(PsCommand());
    var lines := Lines(stdout);
    var infos: seq<DeviceInfo> := [];
    for k := 0 to |lines|
      invariant |infos| == k
      invariant forall i :: 0 <= i < k ==> Row(lines[i]) == Ok(infos[i])
    {
      var row := Row(lines[k]);
      if row.Err? {
        return Err(row.error);
      }
      infos := infos + [row.value];
    }
    return Ok(infos);
  }

  /** `find`: the indices listed in the output, in order, with empty pieces skipped. */
  function Find(stdout: string): Result<seq<nat>, ParseError> {
    IntList(stdout, ',')
  }

  /** `find` of an empty output is the empty list. */
  lemma FindNothing()
    ensures Find("") == Ok([])
  {
    assert Split("", {','}) == [""];
  }

  /** `find` of `0,2` is `[0, 2]`. */
  lemma FindList()
    ensures Find("0,2") == Ok([0, 2])
  {
    assert NatToString(0) == "0" && NatToString(2) == "2";
    assert Numerals([0, 2]) == ["0", "2"];
    assert Join(["0", "2"], ',') == "0,2";
    IntListOfJoin([0, 2], ',');
  }

  /** `find` skips the empty piece of `1,,3`. */
  lemma FindSkipsEmpty()
    ensures Find("1,,3") == Ok([1, 3])
  {
    assert NatToString(1) == "1" && NatToString(3) == "3";
    assert Join(["1", "", "3"], ',') == "1,,3";
    SplitJoin(["1", "", "3"], ',', {','});
    assert NonEmpty(["1", "", "3"]) == ["1", "3"] == Numerals([1, 3]);
    IntsOfNumerals([1, 3]);
  }

  /** `find` of `1,x` fails on `x`. */
  lemma FindRejects()
    ensures Find("1,x") == Err(NotAnInt("x"))
  {
    assert Join(["1", "x"], ',') == "1,x";
    SplitJoin(["1", "x"], ',', {','});
    assert NonEmpty(["1", "x"]) == ["1", "x"];
    assert ParseNat("1").Some? && !IsDigit('x');
  }
}
