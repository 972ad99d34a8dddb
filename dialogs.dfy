/**
 * The environment chooser of src/dialogs.tsx (`Dialogs.activate`). Each
 * environment is offered under a display label; a table from label to value,
 * an insertion-ordered `Map`, starts with a synthetic "create new" entry whose
 * value is the kernel id. The labels offered are the table's keys, and the
 * label the user picks is mapped back through the table.
 */
module Dialogs {
  import opened Wrappers
  import opened OrderedMap
  import opened Handler

  const Placeholder := "Create a new environment"

  /** The display label of an environment: `name (eid)` when it has a name, else its eid. */
  function Desc(env: Env): string {
    if env.name != "" then env.name + " (" + env.eid + ")" else env.eid
  }

  /** Every candidate label, in order: the placeholder, then one per environment. */
  function Labels(envs: seq<Env>): (labels: seq<string>)
    ensures |labels| == |envs| + 1 && labels[0] == Placeholder
    ensures forall i :: 0 <= i < |envs| ==> labels[i + 1] == Desc(envs[i])
  {
    [Placeholder] + seq(|envs|, i requires 0 <= i < |envs| => Desc(envs[i]))
  }

  /** The entries the label table is built from. */
  function Entries(envs: seq<Env>, kernelId: string): (es: seq<(string, string)>)
    ensures |es| == |envs| + 1 && es[0] == (Placeholder, kernelId)
    ensures forall i :: 0 <= i < |envs| ==> es[i + 1] == (Desc(envs[i]), envs[i].eid)
  {
    [(Placeholder, kernelId)] + seq(|envs|, i requires 0 <= i < |envs| => (Desc(envs[i]), envs[i].eid))
  }

  lemma EntriesKeys(envs: seq<Env>, kernelId: string)
    ensures Keys(Entries(envs, kernelId)) == Labels(envs)
  {
    assert |Keys(Entries(envs, kernelId))| == |Labels(envs)|;
  }

  /** The label table `values`. */
  function Table(envs: seq<Env>, kernelId: string): seq<(string, string)> {
    FromEntries(Entries(envs, kernelId))
  }

  /** The items offered to the user: `[...values.keys()]`, each offered once. */
  function Items(envs: seq<Env>, kernelId: string): (items: seq<string>)
    ensures Distinct(items)
  {
    Keys(Table(envs, kernelId))
  }

  /**
   * The value `Dialogs.activate` returns for what the chooser gave back: nothing
   * and the empty string are returned as they are; any other label is looked up,
   * and the label itself is returned when it is not in the table or maps to "".
   */
  function Chosen(envs: seq<Env>, kernelId: string, picked: Option<string>): (r: Option<string>)
    ensures picked.None? || picked == Some("") ==> r == picked
    ensures picked.Some? && picked.value != "" ==> r.Some? && r.value != ""
    ensures picked.Some? && Get(Table(envs, kernelId), picked.value).None? ==> r == picked
  {
    match picked
    case None => None
    case Some(text) =>
      if text == "" then picked
      else match Get(Table(envs, kernelId), text)
        case Some(value) => if value != "" then Some(value) else picked
        case None => picked
  }

  /**
   * `Dialogs.activate` with the chooser dialog as an oracle from the offered
   * items to the pick. The answer is truthy exactly when the pick is, and a
   * falsy pick comes back as it was.
   */
  function Activate(envs: seq<Env>, kernelId: string, pick: seq<string> -> Option<string>): (r: Option<string>)
    ensures var picked := pick(Items(envs, kernelId));
      && (picked.None? || picked == Some("") ==> r == picked)
      && (picked.Some? && picked.value != "" ==> r.Some? && r.value != "")
  {
    Chosen(envs, kernelId, pick(Items(envs, kernelId)))
  }

  /**
   * The offered items are the distinct labels, the placeholder first, each
   * listed once in the order in which it first occurs.
   */
  lemma ItemsAreDistinctLabels(envs: seq<Env>, kernelId: string)
    ensures Distinct(Items(envs, kernelId))
    ensures |Items(envs, kernelId)| >= 1 && Items(envs, kernelId)[0] == Placeholder
    ensures forall x :: x in Items(envs, kernelId) <==> x in Labels(envs)
    ensures ListedByFirstOccurrence(Items(envs, kernelId), Labels(envs))
  {
    EntriesKeys(envs, kernelId);
    FromEntriesKeySet(Entries(envs, kernelId));
    FromEntriesKeyOrder(Entries(envs, kernelId));
    var items := Items(envs, kernelId);
    assert Placeholder in items;
    var k := FirstIndex(items, Placeholder);
    assert FirstIndex(Labels(envs), Placeholder) == 0;
    assert FirstIndex(Labels(envs), items[0]) <= FirstIndex(Labels(envs), items[k]);
  }

  /**
   * When several environments share a label, the label maps to the eid of the
   * last of them (or the placeholder's value when no environment has it).
   */
  lemma {:induction false} ChosenLastWins(envs: seq<Env>, kernelId: string, i: nat)
    requires i < |envs|
    requires forall j :: i < j < |envs| ==> Desc(envs[j]) != Desc(envs[i])
    ensures Chosen(envs, kernelId, Some(Desc(envs[i]))) ==
      Some(if envs[i].eid != "" then envs[i].eid else Desc(envs[i]))
  {
    var es := Entries(envs, kernelId);
    assert es[i + 1] == (Desc(envs[i]), envs[i].eid);
    forall j | i + 1 < j < |es| ensures es[j].0 != es[i + 1].0 {
      assert es[j] == (Desc(envs[j - 1]), envs[j - 1].eid);
    }
    FromEntriesLast(es, i + 1);
    assert Get(Table(envs, kernelId), Desc(envs[i])) == Some(envs[i].eid);
  }

  /** Round trip: a uniquely labelled environment with an eid is offered, and choosing it gives that eid. */
  lemma ChosenRoundTrip(envs: seq<Env>, kernelId: string, i: nat)
    requires i < |envs| && envs[i].eid != ""
    requires forall j :: 0 <= j < |envs| && j != i ==> Desc(envs[j]) != Desc(envs[i])
    ensures Desc(envs[i]) in Items(envs, kernelId)
    ensures Chosen(envs, kernelId, Some(Desc(envs[i]))) == Some(envs[i].eid)
  {
    ItemsAreDistinctLabels(envs, kernelId);
    assert Labels(envs)[i + 1] == Desc(envs[i]);
    ChosenLastWins(envs, kernelId, i);
  }

  /**
   * Choosing the placeholder gives the kernel id (or the placeholder text when
   * the kernel id is empty), unless some environment is labelled like the
   * placeholder, in which case `ChosenLastWins` decides.
   */
  lemma ChosenPlaceholder(envs: seq<Env>, kernelId: string)
    requires forall j :: 0 <= j < |envs| ==> Desc(envs[j]) != Placeholder
    ensures Chosen(envs, kernelId, Some(Placeholder)) == Some(if kernelId != "" then kernelId else Placeholder)
  {
    var es := Entries(envs, kernelId);
    forall j | 0 < j < |es| ensures es[j].0 != es[0].0 {
      assert es[j] == (Desc(envs[j - 1]), envs[j - 1].eid);
    }
    FromEntriesLast(es, 0);
    assert Get(Table(envs, kernelId), Placeholder) == Some(kernelId);
  }

  /** A label that is not in the table comes back unchanged. */
  lemma ChosenUnlisted(envs: seq<Env>, kernelId: string, text: string)
    requires text !in Labels(envs)
    ensures Chosen(envs, kernelId, Some(text)) == Some(text)
  {
    EntriesKeys(envs, kernelId);
    FromEntriesAbsent(Entries(envs, kernelId), text);
  }

  /**
   * Two environments `a` (unnamed) and `b` (named `n`) are offered as "a" and
   * "n (b)" after the placeholder, and each label maps back to its eid.
   */
  lemma TwoEnvironmentsExample(kernelId: string)
    ensures var envs := [Env("a", "", "u"), Env("b", "n", "u")];
      && Labels(envs) == [Placeholder, "a", "n (b)"]
      && Chosen(envs, kernelId, Some("a")) == Some("a")
      && Chosen(envs, kernelId, Some("n (b)")) == Some("b")
  {
    var envs := [Env("a", "", "u"), Env("b", "n", "u")];
    assert Desc(envs[1]) == "n (b)";
    ChosenRoundTrip(envs, kernelId, 0);
    ChosenRoundTrip(envs, kernelId, 1);
  }
}
