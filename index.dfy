/**
 * The notebook front end of src/index.tsx: the "GPUs" button's workflow
 * (`handleClick`), the bootstrap script it types into the configuration
 * terminal (`openTerminal`), and the row labels of the devices and
 * environments panels.
 *
 * The kernel, the dialogs, the server API and the terminal are collaborators:
 * their answers come in through `Host`, and `HandleClick` returns the calls it
 * made to them, in order.
 */
module Index {
  import opened Wrappers
  import opened Text
  import opened Handler
  import Dialogs
  import OrderedMap

  // ---------------------------------------------------------------------------
  // The configuration terminal's input

  /** The comment lines that open the terminal, and the blank line after them. */
  const Guidance: seq<string> := [
    "# this is a terminal for configuring your genv environment.",
    "# it will be activated in your environment.",
    "# you can configure your environment and attach devices from here.",
    "# ",
    "# you can start with running the following command:",
    "# ",
    "#     genv attach --help",
    "# ",
    "# for more information check out the reference at https://github.com/run-ai/genv",
    "# ",
    "# IMPORTANT: you will need to restart your Jupyter kernel after configuring the environment from the terminal.",
    ""
  ]

  const InitLine := "eval \"$(genv init -)\""

  const ActivatePrefix := "genv activate --id "

  function TerminalLines(eid: string): seq<string> {
    Guidance + [InitLine, ActivatePrefix + eid]
  }

  /** The text sent to the terminal's stdin. */
  function TerminalInput(eid: string): string {
    Unlines(TerminalLines(eid))
  }

  /** Two more lines add each of them and a newline after it. */
  lemma UnlinesTwoMore(g: seq<string>, x: string, y: string)
    ensures Unlines(g + [x, y]) == Unlines(g) + (x + "\n" + y + "\n")
    ensures Unlines(g + [x, y]) == Unlines(g) + (x + "\n") + y + "\n"
  {
    UnlinesAppend(g, [x, y]);
    assert [x, y][1..] == [y];
    assert Unlines([y]) == y + "\n";
    var u := Unlines(g);
    assert u + (x + "\n" + y + "\n") == u + (x + "\n") + y + "\n";
  }

  /** Text built from lines ends with its last two lines, each with its newline. */
  lemma UnlinesEndsWith(g: seq<string>, x: string, y: string)
    ensures EndsWith(Unlines(g + [x, y]), x + "\n" + y + "\n")
  {
    UnlinesTwoMore(g, x, y);
    EndsWithAppended(Unlines(g), x + "\n" + y + "\n");
  }

  /** What follows a common prefix is determined by the whole text. */
  lemma PrefixCancel(p: string, x: string, y: string)
    requires p + x == p + y
    ensures x == y
  {
    assert x == (p + x)[|p|..];
    assert y == (p + y)[|p|..];
  }

  /** What stands between a common prefix and a common suffix is determined by the whole text. */
  lemma MiddleCancel(p: string, x: string, y: string, q: string)
    requires p + x + q == p + y + q
    ensures x == y
  {
    var s, t := p + x + q, p + y + q;
    assert |x| == |y|;
    assert x == s[|p|..|p| + |x|];
    assert y == t[|p|..|p| + |y|];
  }

  /** After the same guidance, different eids give different inputs. */
  lemma ScriptInjective(g: seq<string>, a: string, b: string)
    requires Unlines(g + [InitLine, ActivatePrefix + a]) == Unlines(g + [InitLine, ActivatePrefix + b])
    ensures a == b
  {
    UnlinesTwoMore(g, InitLine, ActivatePrefix + a);
    UnlinesTwoMore(g, InitLine, ActivatePrefix + b);
    MiddleCancel(Unlines(g) + (InitLine + "\n"), ActivatePrefix + a, ActivatePrefix + b, "\n");
    PrefixCancel(ActivatePrefix, a, b);
  }

  /**
   * The input ends with the two command lines, each ended by a newline:
   * `eval "$(genv init -)"`, then `genv activate --id <eid>`.
   */
  lemma TerminalInputEnds(eid: string)
    ensures EndsWith(TerminalInput(eid), InitLine + "\n" + ActivatePrefix + eid + "\n")
  {
    UnlinesEndsWith(Guidance, InitLine, ActivatePrefix + eid);
  }

  /** Different environments are activated by different terminal inputs. */
  lemma TerminalInputInjective(a: string, b: string)
    requires TerminalInput(a) == TerminalInput(b)
    ensures a == b
  {
    ScriptInjective(Guidance, a, b);
  }

  /** What `openTerminal` does: open the shared terminal, and type the input only if it was handed back. */
  function TerminalSteps(eid: string, opens: bool): seq<Step> {
    [OpenTerminal] + (if opens then [SendInput(TerminalInput(eid))] else [])
  }

  /** The terminal is opened first; the input is typed once, after it, and only into a terminal that was handed back. */
  lemma TerminalStepsSend(eid: string, opens: bool)
    ensures var steps := TerminalSteps(eid, opens);
      && |steps| >= 1 && steps[0] == OpenTerminal
      && ((exists i :: 0 <= i < |steps| && steps[i].SendInput?) <==> opens)
      && (forall i :: 0 <= i < |steps| && steps[i].SendInput? ==> i == 1 && steps[i].text == TerminalInput(eid))
  {
    if opens {
      assert TerminalSteps(eid, opens)[1].SendInput?;
    }
  }

  // ---------------------------------------------------------------------------
  // Panel rows

  const UsedBy := ": used by environment "

  const Available := ": available"

  /** What the devices panel says after a GPU's index. */
  function DeviceState(device: Device): (s: string)
    ensures |s| >= 3 && s[0] == ':'
  {
    if device.eid != "" then UsedBy + device.eid else Available
  }

  /** The devices panel row of the GPU at `index`. */
  function DeviceLabel(index: nat, device: Device): string {
    "GPU " + (NatToString(index) + DeviceState(device))
  }

  /** The environments panel row: eid and user, then the name if there is one. */
  function EnvLabel(env: Env): string {
    env.eid + " " + env.user + (if env.name != "" then " " + env.name else "")
  }

  /** A GPU's state is told apart by its text: free, or used by one particular environment. */
  lemma DeviceStateInjective(d: Device, e: Device)
    requires DeviceState(d) == DeviceState(e)
    ensures d == e
  {
    var s, t := DeviceState(d), DeviceState(e);
    assert s[2] == if d.eid != "" then 'u' else 'a';
    assert t[2] == if e.eid != "" then 'u' else 'a';
    if d.eid != "" {
      assert d.eid == s[|UsedBy|..] == t[|UsedBy|..] == e.eid;
    }
  }

  /** A numeral followed by a non-digit is read off unambiguously. */
  lemma NumeralThenColon(a: string, s: string, b: string, t: string)
    requires AllDigits(a) && AllDigits(b)
    requires |s| >= 1 && |t| >= 1 && s[0] == ':' && t[0] == ':'
    requires a + s == b + t
    ensures a == b && s == t
  {
    var x := a + s;
    assert !IsDigit(x[|a|]);
    assert forall k :: 0 <= k < |b| ==> IsDigit(x[k]) by {
      forall k | 0 <= k < |b| ensures IsDigit(x[k]) {
        assert x[k] == (b + t)[k] == b[k];
      }
    }
    assert !IsDigit((b + t)[|b|]);
    assert forall k :: 0 <= k < |a| ==> IsDigit((b + t)[k]) by {
      forall k | 0 <= k < |a| ensures IsDigit((b + t)[k]) {
        assert (b + t)[k] == x[k] == a[k];
      }
    }
    assert |a| == |b|;
    assert a == x[..|a|] && b == (b + t)[..|b|];
    assert s == x[|a|..] && t == (b + t)[|b|..];
  }

  /** Different GPUs, or the same GPU in a different state, get different rows. */
  lemma DeviceLabelInjective(i: nat, d: Device, j: nat, e: Device)
    requires DeviceLabel(i, d) == DeviceLabel(j, e)
    ensures i == j && d == e
  {
    PrefixCancel("GPU ", NatToString(i) + DeviceState(d), NatToString(j) + DeviceState(e));
    NumeralThenColon(NatToString(i), DeviceState(d), NatToString(j), DeviceState(e));
    NatToStringInjective(i, j);
    DeviceStateInjective(d, e);
  }

  /** The environments row lists eid, user and (if any) name as space-separated fields. */
  lemma EnvLabelFields(env: Env)
    requires NoneOf(env.eid, {' '}) && NoneOf(env.user, {' '}) && NoneOf(env.name, {' '})
    ensures Split(EnvLabel(env), {' '}) == [env.eid, env.user] + (if env.name != "" then [env.name] else [])
  {
    var fields := [env.eid, env.user] + (if env.name != "" then [env.name] else []);
    assert fields[1..][1..] == if env.name != "" then [env.name] else [];
    if env.name != "" {
      assert Join(fields[1..][1..], ' ') == env.name;
      assert Join(fields[1..], ' ') == env.user + [' '] + env.name;
    } else {
      assert Join(fields[1..], ' ') == env.user;
    }
    assert EnvLabel(env) == Join(fields, ' ');
    SplitJoin(fields, ' ', {' '});
  }

  /** The devices panel (`DevicesWidget.onUpdateRequest`): one row per device, in index order, all distinct. */
  method DeviceRows(devices: seq<Device>) returns (rows: seq<string>)
    ensures |rows| == |devices|
    ensures forall i :: 0 <= i < |devices| ==> rows[i] == DeviceLabel(i, devices[i])
    ensures OrderedMap.Distinct(rows)
  {
    rows := [];
    for index := 0 to |devices|
      invariant |rows| == index
      invariant forall i :: 0 <= i < index ==> rows[i] == DeviceLabel(i, devices[i])
    {
      rows := rows + [DeviceLabel(index, devices[index])];
    }
    forall i, j | 0 <= i < j < |rows| ensures rows[i] != rows[j] {
      if rows[i] == rows[j] {
        DeviceLabelInjective(i, devices[i], j, devices[j]);
      }
    }
  }

  /** The environments panel (`EnvsWidget.onUpdateRequest`): one row per environment, in list order. */
  method EnvRows(envs: seq<Env>) returns (rows: seq<string>)
    ensures |rows| == |envs|
    ensures forall i :: 0 <= i < |envs| ==> rows[i] == EnvLabel(envs[i])
  {
    rows := [];
    for k := 0 to |envs|
      invariant |rows| == k
      invariant forall i :: 0 <= i < k ==> rows[i] == EnvLabel(envs[i])
    {
      rows := rows + [EnvLabel(envs[k])];
    }
  }

  // ---------------------------------------------------------------------------
  // The binding workflow

  datatype KernelSpec = KernelSpec(name: string)

  datatype Kernel = Kernel(id: string, spec: Option<KernelSpec>)

  /** What a `Handler` call gives back: a value, or the error it throws. */
  datatype Reply<T> = Returned(value: T) | Threw(error: ApiError)

  /** The answers of the collaborators `handleClick` talks to. */
  datatype Host = Host(
    acceptNoKernel: bool,                        // `Dialogs.noKernel`
    acceptNotSupported: bool,                    // `Dialogs.notSupportedKernel`
    find: string -> Reply<Option<string>>,       // `Handler.find`
    envs: Reply<seq<Env>>,                       // `Handler.envs`
    pick: seq<string> -> Option<string>,         // the chooser of `Dialogs.activate`
    activate: (string, string) -> Reply<()>,     // `Handler.activate`
    acceptConfigure: string -> bool,             // `Dialogs.configure`
    terminalOpens: bool)                         // `terminal:open` hands the terminal back

  /** One call to a collaborator. */
  datatype Step =
    | AskNoKernel
    | AskNotSupported
    | ChangeKernel
    | Find(kernelId: string)
    | ListEnvs
    | Choose(items: seq<string>)
    | Activate(kernelId: string, eid: string)
    | AskConfigure(eid: string)
    | OpenTerminal
    | SendInput(text: string)

  /** A run ends normally (whatever the user chose) or with the error a `Handler` call threw. */
  datatype Outcome = Finished | Aborted(error: ApiError)

  /** Whether a kernel may be bound: its spec's name ends with `-genv` (case-sensitive). */
  predicate IsGenvKernel(spec: Option<KernelSpec>) {
    spec.Some? && EndsWith(spec.value.name, "-genv")
  }

  predicate CallsHandler(s: Step) {
    s.Find? || s.ListEnvs? || s.Activate?
  }

  /** JavaScript truthiness of a `string | null`. */
  predicate Present(eid: Option<string>) {
    eid.Some? && eid.value != ""
  }

  /** The `if (eid)` tail of `handleClick`: offer configuration, and open the terminal when it is accepted. */
  function ConfigureSteps(eid: string, host: Host): seq<Step> {
    [AskConfigure(eid)] + (if host.acceptConfigure(eid) then TerminalSteps(eid, host.terminalOpens) else [])
  }

  /** `s` occurs in `steps` exactly once, at position `k`. */
  predicate OnlyAt(steps: seq<Step>, s: Step, k: nat) {
    k < |steps| && steps[k] == s && forall i :: 0 <= i < |steps| && steps[i] == s ==> i == k
  }

  /** Steps that neither configure nor touch the terminal. */
  predicate Quiet(steps: seq<Step>) {
    forall i :: 0 <= i < |steps| ==> !steps[i].AskConfigure? && !steps[i].OpenTerminal? && !steps[i].SendInput?
  }

  /**
   * The order every run keeps: the terminal is opened only right after an
   * accepted configuration offer, its input names the offered eid, an offered
   * eid is never empty, and it is the eid of any activation in the run.
   */
  predicate Ordered(steps: seq<Step>, host: Host) {
    && (forall i :: 0 <= i < |steps| && steps[i] == OpenTerminal ==>
          i >= 1 && steps[i - 1].AskConfigure? && host.acceptConfigure(steps[i - 1].eid))
    && (forall i :: 0 <= i < |steps| && steps[i].SendInput? ==>
          i >= 2 && steps[i - 1] == OpenTerminal && steps[i - 2].AskConfigure? &&
          steps[i].text == TerminalInput(steps[i - 2].eid))
    && (forall i :: 0 <= i < |steps| && steps[i].AskConfigure? ==> steps[i].eid != "")
    && (forall i, j :: 0 <= i < |steps| && 0 <= j < |steps| && steps[i].AskConfigure? && steps[j].Activate? ==>
          steps[j].eid == steps[i].eid)
  }

  lemma QuietOrdered(steps: seq<Step>, host: Host)
    requires Quiet(steps)
    ensures Ordered(steps, host)
  {
  }

  /** A lookup in front of an ordered run keeps it ordered. */
  lemma OrderedAfterFind(id: string, rest: seq<Step>, host: Host)
    requires Ordered(rest, host)
    ensures Ordered([Find(id)] + rest, host)
    ensures Quiet(rest) ==> Quiet([Find(id)] + rest)
  {
    var steps := [Find(id)] + rest;
    forall i | 1 <= i < |steps| ensures steps[i] == rest[i - 1] {
    }
    forall i | 0 <= i < |steps| && steps[i] == OpenTerminal
      ensures i >= 2 && steps[i - 1].AskConfigure? && host.acceptConfigure(steps[i - 1].eid)
    {
      assert rest[i - 1] == OpenTerminal;
    }
    forall i | 0 <= i < |steps| && steps[i].SendInput?
      ensures i >= 3 && steps[i - 1] == OpenTerminal && steps[i - 2].AskConfigure? &&
              steps[i].text == TerminalInput(steps[i - 2].eid)
    {
      assert rest[i - 1].SendInput?;
    }
    forall i, j | 0 <= i < |steps| && 0 <= j < |steps| && steps[i].AskConfigure? && steps[j].Activate?
      ensures steps[j].eid == steps[i].eid
    {
      assert rest[i - 1].AskConfigure? && rest[j - 1].Activate?;
    }
  }

  /** Configuring after quiet steps, whose activations (if any) are of the same eid, keeps the order. */
  lemma ConfigureOrdered(prefix: seq<Step>, eid: string, host: Host)
    requires Quiet(prefix) && eid != ""
    requires forall j :: 0 <= j < |prefix| && prefix[j].Activate? ==> prefix[j].eid == eid
    ensures Ordered(prefix + ConfigureSteps(eid, host), host)
  {
    var steps := prefix + ConfigureSteps(eid, host);
    var n := |prefix|;
    assert steps[n] == AskConfigure(eid);
    forall i | 0 <= i < |steps| && steps[i].AskConfigure? ensures i == n {
    }
    forall j | 0 <= j < |steps| && steps[j].Activate? ensures j < n && steps[j] == prefix[j] {
    }
    forall i | 0 <= i < |steps| && (steps[i] == OpenTerminal || steps[i].SendInput?)
      ensures i > n && steps[n + 1] == OpenTerminal && host.acceptConfigure(eid)
      ensures steps[i].SendInput? ==> i == n + 2 && steps[i].text == TerminalInput(eid)
    {
    }
  }

  /**
   * The `if (!eid)` block of `handleClick` for an unbound kernel: list the
   * environments, let the user pick one (or "create new", the kernel id),
   * and bind the kernel to the pick. `eid` is the pick.
   */
  method Bind(id: string, host: Host) returns (steps: seq<Step>, eid: Option<string>, outcome: Outcome)
    ensures OnlyAt(steps, ListEnvs, 0)
    ensures Quiet(steps)
    ensures host.envs.Threw? ==> steps == [ListEnvs] && outcome == Aborted(host.envs.error)
    ensures host.envs.Returned? ==>
      var items := Dialogs.Items(host.envs.value, id);
      && |steps| >= 2 && steps[1] == Choose(items)
      && eid == Dialogs.Activate(host.envs.value, id, host.pick)
      // A cancelled chooser ends the block without a binding.
      && (!Present(eid) ==> steps == [ListEnvs, Choose(items)] && outcome == Finished)
      // A pick is activated, exactly once.
      && (Present(eid) ==>
            && steps == [ListEnvs, Choose(items), Activate(id, eid.value)]
            && (host.activate(id, eid.value).Threw? ==> outcome == Aborted(host.activate(id, eid.value).error))
            && (host.activate(id, eid.value).Returned? ==> outcome == Finished))
    ensures outcome.Aborted? ==> CallsHandler(steps[|steps| - 1])
  {
    steps := [ListEnvs];
    eid := None;
    var envs := host.envs;
    if envs.Threw? {
      return steps, eid, Aborted(envs.error);
    }
    var items := Dialogs.Items(envs.value, id);
    steps := steps + [Choose(items)];
    eid := Dialogs.Activate(envs.value, id, host.pick);
    outcome := Finished;
    if Present(eid) {
      steps := steps + [Activate(id, eid.value)];
      var activated := host.activate(id, eid.value);
      if activated.Threw? {
        outcome := Aborted(activated.error);
      }
    }
  }

  /**
   * A run for an unbound kernel `id`: the environments are listed once; if
   * they arrive, the chooser is shown and the run goes on as `PickRun` says.
   */
  predicate BindRun(steps: seq<Step>, outcome: Outcome, id: string, host: Host) {
    && OnlyAt(steps, ListEnvs, 0)
    && (host.envs.Threw? ==> steps == [ListEnvs] && outcome == Aborted(host.envs.error))
    && (host.envs.Returned? ==>
          var items := Dialogs.Items(host.envs.value, id);
          PickRun(steps, outcome, id, host, items, Dialogs.Activate(host.envs.value, id, host.pick)))
  }

  /**
   * After the listing, the chooser is shown the offered `items` and gives
   * `chosen`: a pick is activated once and, when that succeeds, configured;
   * a cancelled chooser ends the run.
   */
  predicate PickRun(steps: seq<Step>, outcome: Outcome, id: string, host: Host, items: seq<string>, chosen: Option<string>) {
    && |steps| >= 2 && steps[1] == Choose(items)
    && (!Present(chosen) ==> steps == [ListEnvs, Choose(items)] && outcome == Finished)
    && (Present(chosen) ==>
          && OnlyAt(steps, Activate(id, chosen.value), 2)
          && (host.activate(id, chosen.value).Threw? ==>
                |steps| == 3 && outcome == Aborted(host.activate(id, chosen.value).error))
          && (host.activate(id, chosen.value).Returned? ==>
                steps[3..] == ConfigureSteps(chosen.value, host) && outcome == Finished))
  }

  /**
   * "Create a new environment" is an ordinary pick: the placeholder maps to
   * the kernel id, so the kernel is activated under its own id.
   */
  lemma CreateNewActivatesKernel(steps: seq<Step>, outcome: Outcome, id: string, host: Host)
    requires BindRun(steps, outcome, id, host)
    requires host.envs.Returned? && id != ""
    requires forall j :: 0 <= j < |host.envs.value| ==> Dialogs.Desc(host.envs.value[j]) != Dialogs.Placeholder
    requires host.pick(Dialogs.Items(host.envs.value, id)) == Some(Dialogs.Placeholder)
    ensures |steps| >= 3 && steps[2] == Activate(id, id)
    ensures host.activate(id, id).Returned? ==> steps[3..] == ConfigureSteps(id, host)
  {
    Dialogs.ChosenPlaceholder(host.envs.value, id);
  }

  /** A successful activation of a pick followed by its configuration is a run `PickRun` allows. */
  lemma ConfiguredPick(id: string, host: Host, items: seq<string>, eid: string)
    requires eid != "" && host.activate(id, eid).Returned?
    ensures var steps := [ListEnvs, Choose(items), Activate(id, eid)] + ConfigureSteps(eid, host);
      OnlyAt(steps, ListEnvs, 0) && PickRun(steps, Finished, id, host, items, Some(eid))
  {
    var steps := [ListEnvs, Choose(items), Activate(id, eid)] + ConfigureSteps(eid, host);
    assert forall i :: 3 <= i < |steps| ==> steps[i].AskConfigure? || steps[i].OpenTerminal? || steps[i].SendInput?;
    assert steps[3..] == ConfigureSteps(eid, host);
  }

  /** An unbound kernel: `Bind`, then, unless that failed, configure the picked eid. */
  method BindThenConfigure(id: string, host: Host) returns (steps: seq<Step>, outcome: Outcome)
    ensures BindRun(steps, outcome, id, host)
    ensures Ordered(steps, host)
    ensures outcome.Aborted? ==> |steps| >= 1 && CallsHandler(steps[|steps| - 1]) && Quiet(steps)
  {
    var eid;
    steps, eid, outcome := Bind(id, host);
    if outcome.Aborted? || !Present(eid) {
      QuietOrdered(steps, host);
      return;
    }
    ConfigureOrdered(steps, eid.value, host);
    ConfiguredPick(id, host, Dialogs.Items(host.envs.value, id), eid.value);
    steps := steps + ConfigureSteps(eid.value, host);
  }

  /**
   * The run for a genv kernel `id`: the binding is looked up first; a bound
   * kernel goes straight to configuration with its eid (no listing, no
   * activation), and an unbound kernel is bound as `BindRun` describes.
   */
  predicate GenvRun(steps: seq<Step>, outcome: Outcome, id: string, host: Host) {
    var found := host.find(id);
    && |steps| >= 1 && steps[0] == Find(id)
    && (found.Threw? ==> steps == [Find(id)] && outcome == Aborted(found.error))
    && (found.Returned? && Present(found.value) ==>
          steps == [Find(id)] + ConfigureSteps(found.value.value, host) && outcome == Finished)
    && (found.Returned? && !Present(found.value) ==> BindRun(steps[1..], outcome, id, host))
  }

  /** The genv-kernel branch of `handleClick`: look the binding up, bind if needed, then configure. */
  method ClickGenvKernel(id: string, host: Host) returns (steps: seq<Step>, outcome: Outcome)
    ensures GenvRun(steps, outcome, id, host)
    ensures Ordered(steps, host)
    ensures outcome.Aborted? ==> |steps| >= 1 && CallsHandler(steps[|steps| - 1]) && Quiet(steps)
  {
    steps := [Find(id)];
    var found := host.find(id);
    if found.Threw? {
      QuietOrdered(steps, host);
      return steps, Aborted(found.error);
    }
    var eid := found.value;
    if Present(eid) {
      ConfigureOrdered(steps, eid.value, host);
      steps := steps + ConfigureSteps(eid.value, host);
      return steps, Finished;
    }
    var rest;
    rest, outcome := BindThenConfigure(id, host);
    OrderedAfterFind(id, rest, host);
    steps := steps + rest;
    assert steps[1..] == rest;
  }

  /**
   * `handleClick`: without a kernel, or with a kernel that is not a genv
   * kernel, only the matching dialog runs (and the kernel chooser if it is
   * accepted); no server call is made. A genv kernel runs as `GenvRun` says.
   * Any `Handler` error ends the run at that call.
   */
  method HandleClick(kernel: Option<Kernel>, host: Host) returns (steps: seq<Step>, outcome: Outcome)
    ensures kernel.None? ==>
      steps == [AskNoKernel] + (if host.acceptNoKernel then [ChangeKernel] else []) && outcome == Finished
    ensures kernel.Some? && !IsGenvKernel(kernel.value.spec) ==>
      steps == [AskNotSupported] + (if host.acceptNotSupported then [ChangeKernel] else []) && outcome == Finished
    ensures (exists i :: 0 <= i < |steps| && CallsHandler(steps[i])) ==>
      kernel.Some? && IsGenvKernel(kernel.value.spec)
    ensures kernel.Some? && IsGenvKernel(kernel.value.spec) ==> GenvRun(steps, outcome, kernel.value.id, host)
    // Whatever the path: the terminal only follows an accepted configuration of the bound eid.
    ensures Ordered(steps, host)
    ensures outcome.Aborted? ==> |steps| >= 1 && CallsHandler(steps[|steps| - 1]) && Quiet(steps)
  {
    if kernel.None? {
      steps := [AskNoKernel];
      if host.acceptNoKernel {
        steps := steps + [ChangeKernel];
      }
      QuietOrdered(steps, host);
      return steps, Finished;
    }
    if !IsGenvKernel(kernel.value.spec) {
      steps := [AskNotSupported];
      if host.acceptNotSupported {
        steps := steps + [ChangeKernel];
      }
      QuietOrdered(steps, host);
      return steps, Finished;
    }
    steps, outcome := ClickGenvKernel(kernel.value.id, host);
  }
}
