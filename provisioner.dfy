/**
 * The kernel provisioner of jupyterlab_genv/genv_provisioner.py: before a
 * kernel starts, `pre_launch` finds the environment the kernel is bound to
 * (the kernel id itself when it is not bound), asks `genv` for the devices
 * attached to that environment, and launches the kernel with a copy of its
 * environment variables in which `CUDA_VISIBLE_DEVICES` lists those devices.
 *
 * The lookup of the binding (`genv.envs.find`) and the command runner are
 * foreign calls and come in as parameters.
 */
module Provisioner {
  import opened Wrappers
  import opened Text
  import opened CliOutput
  import Devices

  /** A mutable table of environment variables (a `dict`, or `os.environ`). */
  class Environ {
    var items: map<string, string>

    constructor (items: map<string, string>)
      ensures this.items == items
    {
      this.items := items;
    }

    /** `copy()`: a new table with the same variables. */
    method Copy() returns (c: Environ)
      ensures fresh(c) && c.items == items
    {
      c := new Environ(items);
    }

    /** `update(other)`: sets every variable of `other`, keeping the rest. */
    method Update(other: map<string, string>)
      modifies this
      ensures items == old(items) + other
    {
      items := items + other;
    }
  }

  /** The keyword arguments of the launch; `env` is `null` when they carry no `env` entry. */
  class Kwargs {
    var env: Environ?

    constructor (env: Environ?)
      ensures this.env == env
    {
      this.env := env;
    }
  }

  const CudaVisibleDevices := "CUDA_VISIBLE_DEVICES"

  /** `await genv.envs.find(kernel_id) or kernel_id`: the bound eid if there is a non-empty one. */
  function ResolveEid(found: Option<string>, kernelId: string): (eid: string)
    ensures found.Some? && found.value != "" ==> eid == found.value
    ensures found.None? || found.value == "" ==> eid == kernelId
  {
    match found
    case Some(e) => if e != "" then e else kernelId
    case None => kernelId
  }

  /** `','.join(str(index) for index in indices)`. */
  function VisibleDevices(indices: seq<nat>): string {
    Join(Numerals(indices), ',')
  }

  /** Round trip: `devices.find`'s reading of the variable gives back the indices, in order. */
  lemma VisibleDevicesRoundTrip(indices: seq<nat>)
    ensures Devices.Find(VisibleDevices(indices)) == Ok(indices)
  {
    IntListOfJoin(indices, ',');
  }

  /** No devices give the empty string, and one device its bare number. */
  lemma VisibleDevicesShort(index: nat)
    ensures VisibleDevices([]) == ""
    ensures VisibleDevices([index]) == NatToString(index)
  {
    assert Numerals([index]) == [NatToString(index)];
  }

  /** Different device lists give different values of the variable. */
  lemma VisibleDevicesInjective(xs: seq<nat>, ys: seq<nat>)
    requires VisibleDevices(xs) == VisibleDevices(ys)
    ensures xs == ys
  {
    VisibleDevicesRoundTrip(xs);
    VisibleDevicesRoundTrip(ys);
  }

  /**
   * `GenvProvisioner.pre_launch` up to the call of the base provisioner:
   * `envsFind` answers `genv.envs.find`, and `exec` gives the output of a
   * `genv` command. `command` is the device query that was run. When its
   * output does not parse, the error propagates and the arguments are
   * untouched; otherwise `kwargs.env` is a new table: the launch's `env`
   * (or the process environment) with `CUDA_VISIBLE_DEVICES` set. The table
   * it was copied from is not changed.
   */
  method PreLaunch(kernelId: string, envsFind: string -> Option<string>, exec: string -> string,
                   processEnv: Environ, kwargs: Kwargs)
    returns (r: Result<(), ParseError>, command: string)
    modifies kwargs
    ensures command == Devices.FindCommand(ResolveEid(envsFind(kernelId), kernelId))
    ensures r.Ok? <==> Devices.Find(exec(command)).Ok?
    ensures r.Err? ==> r.error == Devices.Find(exec(command)).error && kwargs.env == old(kwargs.env)
    ensures r.Ok? ==>
      var base := if old(kwargs.env) != null then old(kwargs.env) else processEnv;
      && kwargs.env != null && fresh(kwargs.env)
      && kwargs.env.items == base.items[CudaVisibleDevices := VisibleDevices(Devices.Find(exec(command)).value)]
      && forall name :: name != CudaVisibleDevices ==>
           (name in kwargs.env.items <==> name in base.items) &&
           (name in base.items ==> kwargs.env.items[name] == base.items[name])
    ensures unchanged(processEnv)
    ensures old(kwargs.env) != null ==> unchanged(old(kwargs.env))
  {
    var eid := ResolveEid(envsFind(kernelId), kernelId);
    command := Devices.FindCommand(eid);
    var indices := Devices.Find(exec(command));
    if indices.Err? {
      return Err(indices.error), command;
    }
    var base := if kwargs.env != null then kwargs.env else processEnv;
    var env := base.Copy();
    env.Update(map[CudaVisibleDevices := VisibleDevices(indices.value)]);
    kwargs.env := env;
    r := Ok(());
  }
}
