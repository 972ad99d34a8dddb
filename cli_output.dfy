/**
 * Reading the text the `genv` command line prints (jupyterlab_genv/genv/):
 * the non-empty lines of an output, and lists of integers separated by one
 * character, where empty pieces are skipped and every other piece must be an
 * integer. `int()` is modelled on its digits-only core (see README).
 */
module CliOutput {
  import opened Wrappers
  import opened Text

  /** The characters at which Python's `str.splitlines` breaks lines. */
  const LineBreaks: set<char> := {
    '\n', '\r', '\U{000B}', '\U{000C}', '\U{001C}', '\U{001D}', '\U{001E}', '\U{0085}', '\U{2028}', '\U{2029}'
  }

  /** `[line for line in stdout.splitlines() if len(line)]`. */
  function Lines(stdout: string): (lines: seq<string>)
    ensures forall i :: 0 <= i < |lines| ==> lines[i] != "" && NoneOf(lines[i], LineBreaks)
  {
    var pieces := Split(stdout, LineBreaks);
    var lines := NonEmpty(pieces);
    assert forall i :: 0 <= i < |lines| ==> lines[i] in pieces;
    lines
  }

  /** Printing non-empty lines, each with its newline, and reading them back gives the same lines. */
  lemma LinesOfUnlines(lines: seq<string>)
    requires forall i :: 0 <= i < |lines| ==> lines[i] != "" && NoneOf(lines[i], LineBreaks)
    ensures Lines(Unlines(lines)) == lines
  {
    SplitUnlines(lines, LineBreaks);
    NonEmptyAppend(lines, [""]);
    NonEmptyKeeps(lines);
  }

  /** A field that can be printed inside a CSV row: no comma and no line break. */
  predicate Plain(field: string) {
    NoneOf(field, LineBreaks) && NoneOf(field, {','})
  }

  /** A row of plain fields joined with commas is a line of its own. */
  lemma CsvRowIsLine(fields: seq<string>)
    requires |fields| >= 2
    requires forall i :: 0 <= i < |fields| ==> NoneOf(fields[i], LineBreaks)
    ensures Join(fields, ',') != "" && NoneOf(Join(fields, ','), LineBreaks)
  {
    JoinNoneOf(fields, ',', LineBreaks);
    assert Join(fields, ',') == fields[0] + [','] + Join(fields[1..], ',');
  }

  lemma NumeralIsPlain(n: nat)
    ensures Plain(NatToString(n))
  {
    var s := NatToString(n);
    assert forall i :: 0 <= i < |s| ==> IsDigit(s[i]);
  }

  /** Why a line of output was rejected: the `ValueError`s of tuple unpacking and of `int()`. */
  datatype ParseError =
    | FieldCount(expected: nat, got: nat)
    | NotAnInt(text: string)

  /** `int(text)` for a non-negative decimal number. */
  function Int(text: string): (r: Result<nat, ParseError>)
    ensures r.Ok? <==> ParseNat(text).Some?
    ensures r.Ok? ==> Some(r.value) == ParseNat(text)
    ensures r.Err? ==> r.error == NotAnInt(text)
  {
    match ParseNat(text)
    case Some(n) => Ok(n)
    case None => Err(NotAnInt(text))
  }

  /**
   * `[int(p) for p in pieces]`: every piece as an integer, in order, or the
   * error of the first piece that is not one.
   */
  function Ints(pieces: seq<string>): (r: Result<seq<nat>, ParseError>)
    ensures r.Ok? <==> forall i :: 0 <= i < |pieces| ==> ParseNat(pieces[i]).Some?
    ensures r.Ok? ==> |r.value| == |pieces| && forall i :: 0 <= i < |pieces| ==> Some(r.value[i]) == ParseNat(pieces[i])
    ensures r.Err? ==> exists k :: 0 <= k < |pieces| && ParseNat(pieces[k]).None? && r.error == NotAnInt(pieces[k]) &&
                                  (forall i :: 0 <= i < k ==> ParseNat(pieces[i]).Some?)
  {
    if pieces == [] then Ok([])
    else match Int(pieces[0])
      case Err(e) => Err(e)
      case Ok(n) =>
        match Ints(pieces[1..])
        case Err(e) =>
          assert forall k :: 0 <= k < |pieces| - 1 ==> pieces[1..][k] == pieces[k + 1];
          Err(e)
        case Ok(ns) => Ok([n] + ns)
  }

  /** `[int(p) for p in s.split(sep) if len(p) > 0]`. */
  function IntList(s: string, sep: char): Result<seq<nat>, ParseError> {
    Ints(NonEmpty(Split(s, {sep})))
  }

  /** Numbers printed in decimal are read back as they were. */
  lemma IntsOfNumerals(xs: seq<nat>)
    ensures Ints(Numerals(xs)) == Ok(xs)
  {
    var pieces := Numerals(xs);
    forall i | 0 <= i < |xs| ensures ParseNat(pieces[i]) == Some(xs[i]) {
      ParseNatToString(xs[i]);
    }
    var r := Ints(pieces);
    assert r.Ok? && |r.value| == |xs|;
    assert forall i :: 0 <= i < |xs| ==> r.value[i] == xs[i];
    assert r.value == xs;
  }

  /** Round trip: numbers printed in decimal and joined with `sep` are read back as they were. */
  lemma IntListOfJoin(xs: seq<nat>, sep: char)
    requires !IsDigit(sep)
    ensures IntList(Join(Numerals(xs), sep), sep) == Ok(xs)
  {
    var parts := Numerals(xs);
    if xs == [] {
      assert Join(parts, sep) == "";
      assert NonEmpty([""]) == [];
    } else {
      forall i | 0 <= i < |parts| ensures NoneOf(parts[i], {sep}) && parts[i] != "" {
        assert AllDigits(parts[i]);
      }
      SplitJoin(parts, sep, {sep});
      NonEmptyKeeps(parts);
      IntsOfNumerals(xs);
    }
  }
}
