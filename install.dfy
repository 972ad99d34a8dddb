/**
 * `python -m jupyterlab_genv install` (jupyterlab_genv/__main__.py): every
 * installed kernel spec that is not itself a genv wrapper and has no wrapper
 * yet gets a copy named `<name>-genv`, whose `kernel.json` shows ` (genv)`
 * after its display name and names the genv provisioner in its metadata.
 *
 * The kernel-spec table, the file system and JSON (de)serialisation are
 * outside the model: the table is a list of (name, directory) pairs, the
 * directory copy and the file write are recorded as effects, and `read`
 * gives the JSON value of the `kernel.json` a path holds (nothing when the
 * file is missing or is not JSON).
 */
module Install {
  import opened Wrappers
  import opened Text
  import opened JsonValue
  import opened OrderedMap

  const Suffix := "-genv"

  const DisplaySuffix := " (genv)"

  /** `{ 'provisioner_name': 'genv-provisioner' }`. */
  const ProvisionerSpec := JObject([("provisioner_name", JString("genv-provisioner"))])

  /** Whether the spec `name` of a table with spec names `names` is wrapped: it is no wrapper and has none. */
  predicate Wraps(name: string, names: seq<string>) {
    !EndsWith(name, Suffix) && name + Suffix !in names
  }

  /** The entries of `specs` that are wrapped, decided against the spec names `names`, in order. */
  function SelectFrom(specs: seq<(string, string)>, names: seq<string>): (sel: seq<(string, string)>)
    ensures |sel| <= |specs|
  {
    if specs == [] then []
    else (if Wraps(specs[0].0, names) then [specs[0]] else []) + SelectFrom(specs[1..], names)
  }

  /** The selected entries are exactly the wrapped ones. */
  lemma {:induction false} SelectFromMembers(specs: seq<(string, string)>, names: seq<string>)
    ensures forall s :: s in SelectFrom(specs, names) <==> s in specs && Wraps(s.0, names)
  {
    if specs != [] {
      SelectFromMembers(specs[1..], names);
      assert specs == [specs[0]] + specs[1..];
    }
  }

  /** The specs `do_install` wraps, all decided against the table as it was read at the start. */
  function Selected(specs: seq<(string, string)>): seq<(string, string)> {
    SelectFrom(specs, Keys(specs))
  }

  /** `f'{kernel_spec_dir}-genv'`. */
  function Destination(dir: string): string {
    dir + Suffix
  }

  /** `os.path.join(dst, "kernel.json")` for a destination, which never ends with a slash. */
  function KernelJsonPath(dst: string): string {
    dst + "/kernel.json"
  }

  /** The exceptions the rewrite of a spec can raise. */
  datatype InstallError =
    | NoKernelJson(path: string)   // the file is missing or is not JSON
    | NotAnObject                  // the document is not an object, so it cannot be indexed by key
    | MissingDisplayName           // `KeyError: 'display_name'`
    | DisplayNameNotText           // a display name that is not a string (see README)
    | MetadataNotAnObject          // `metadata` cannot take a `kernel_provisioner` member

  function Metadata(fields: seq<(string, Json)>): Option<Json> {
    Get(fields, "metadata")
  }

  /**
   * The rewrite of `kernel.json`: the display name gets ` (genv)` appended,
   * `metadata` is added (empty, at the end) when absent, and its
   * `kernel_provisioner` member is set to the genv provisioner.
   */
  function WrapKernelJson(j: Json): (r: Result<Json, InstallError>)
    ensures r.Ok? <==>
      && j.JObject?
      && Get(j.fields, "display_name").Some? && Get(j.fields, "display_name").value.JString?
      && (Metadata(j.fields).None? || Metadata(j.fields).value.JObject?)
    ensures !j.JObject? ==> r == Err(NotAnObject)
    ensures j.JObject? && Get(j.fields, "display_name").None? ==> r == Err(MissingDisplayName)
  {
    if !j.JObject? then Err(NotAnObject)
    else match Get(j.fields, "display_name")
      case None => Err(MissingDisplayName)
      case Some(name) =>
        if !name.JString? then Err(DisplayNameNotText)
        else
          var withMeta := WithMetadata(j.fields, name.s);
          WithMetadataKeeps(j.fields, name.s);
          var meta := Metadata(withMeta).value;
          if !meta.JObject? then Err(MetadataNotAnObject)
          else Ok(JObject(Put(withMeta, "metadata", JObject(Put(meta.fields, "kernel_provisioner", ProvisionerSpec)))))
  }

  /** The top-level members after the rename, before the metadata is touched. */
  function WithMetadata(fields: seq<(string, Json)>, name: string): seq<(string, Json)> {
    var named := Put(fields, "display_name", JString(name + DisplaySuffix));
    if Metadata(named).None? then Put(named, "metadata", JObject([])) else named
  }

  /** The rename and the metadata default keep every other member, in place, and append `metadata` when absent. */
  lemma WithMetadataKeeps(fields: seq<(string, Json)>, name: string)
    requires "display_name" in Keys(fields)
    ensures var m := WithMetadata(fields, name);
      && Keys(m) == (if "metadata" in Keys(fields) then Keys(fields) else Keys(fields) + ["metadata"])
      && Get(m, "display_name") == Some(JString(name + DisplaySuffix))
      && (forall k :: k != "display_name" && k != "metadata" ==> Get(m, k) == Get(fields, k))
      && (Metadata(fields).Some? ==> Metadata(m) == Metadata(fields))
      && (Metadata(fields).None? ==> Metadata(m) == Some(JObject([])))
  {
    assert |"display_name"| != |"metadata"|;
    var value := JString(name + DisplaySuffix);
    var named := Put(fields, "display_name", value);
    PutKeys(fields, "display_name", value);
    PutGet(fields, "display_name", value, "display_name");
    PutGet(fields, "display_name", value, "metadata");
    forall k | k != "display_name" ensures Get(named, k) == Get(fields, k) {
      PutGet(fields, "display_name", value, k);
    }
    if Metadata(named).None? {
      PutKeys(named, "metadata", JObject([]));
      PutGet(named, "metadata", JObject([]), "metadata");
      PutGet(named, "metadata", JObject([]), "display_name");
      forall k | k != "metadata" ensures Get(WithMetadata(fields, name), k) == Get(named, k) {
        PutGet(named, "metadata", JObject([]), k);
      }
    }
  }

  /** A successful rewrite is the document with its metadata replaced, the provisioner set in it. */
  lemma WrapKernelJsonSteps(j: Json)
    requires WrapKernelJson(j).Ok?
    ensures var name := Get(j.fields, "display_name").value.s;
      var withMeta := WithMetadata(j.fields, name);
      && Metadata(withMeta).Some? && Metadata(withMeta).value.JObject?
      && WrapKernelJson(j) == Ok(JObject(Put(withMeta, "metadata",
           JObject(Put(Metadata(withMeta).value.fields, "kernel_provisioner", ProvisionerSpec)))))
  {
    WithMetadataKeeps(j.fields, Get(j.fields, "display_name").value.s);
  }

  /**
   * A successful rewrite: the display name is the old one followed by
   * " (genv)"; every other top-level member is kept, in place, and
   * `metadata` is appended when it was absent.
   */
  lemma WrapKernelJsonMembers(j: Json)
    requires WrapKernelJson(j).Ok?
    ensures var before, after := j.fields, WrapKernelJson(j).value;
      && after.JObject?
      && Get(after.fields, "display_name") == Some(JString(Get(before, "display_name").value.s + DisplaySuffix))
      && Keys(after.fields) == (if "metadata" in Keys(before) then Keys(before) else Keys(before) + ["metadata"])
      && (forall k :: k != "display_name" && k != "metadata" ==> Get(after.fields, k) == Get(before, k))
  {
    assert |"display_name"| != |"metadata"|;
    WrapKernelJsonSteps(j);
    var name := Get(j.fields, "display_name").value.s;
    WithMetadataKeeps(j.fields, name);
    var withMeta := WithMetadata(j.fields, name);
    var meta := JObject(Put(Metadata(withMeta).value.fields, "kernel_provisioner", ProvisionerSpec));
    PutKeys(withMeta, "metadata", meta);
    assert "metadata" in Keys(withMeta);
    PutGet(withMeta, "metadata", meta, "display_name");
    forall k | k != "metadata" ensures Get(WrapKernelJson(j).value.fields, k) == Get(withMeta, k) {
      PutGet(withMeta, "metadata", meta, k);
    }
  }

  /** A successful rewrite keeps the metadata's members and names the genv provisioner in it. */
  lemma WrapKernelJsonMetadata(j: Json)
    requires WrapKernelJson(j).Ok?
    ensures var before, after := j.fields, WrapKernelJson(j).value;
      && after.JObject? && Metadata(after.fields).Some? && Metadata(after.fields).value.JObject?
      && var meta, oldMeta := Metadata(after.fields).value.fields,
                              if Metadata(before).Some? then Metadata(before).value.fields else [];
      && Get(meta, "kernel_provisioner") == Some(ProvisionerSpec)
      && (forall k :: k != "kernel_provisioner" ==> Get(meta, k) == Get(oldMeta, k))
  {
    WrapKernelJsonSteps(j);
    var name := Get(j.fields, "display_name").value.s;
    WithMetadataKeeps(j.fields, name);
    var withMeta := WithMetadata(j.fields, name);
    var oldMeta := Metadata(withMeta).value.fields;
    var meta := JObject(Put(oldMeta, "kernel_provisioner", ProvisionerSpec));
    PutGet(withMeta, "metadata", meta, "metadata");
    PutGet(oldMeta, "kernel_provisioner", ProvisionerSpec, "kernel_provisioner");
    forall k | k != "kernel_provisioner" ensures Get(meta.fields, k) == Get(oldMeta, k) {
      PutGet(oldMeta, "kernel_provisioner", ProvisionerSpec, k);
    }
  }

  /** What the installation does that can be observed, in order. */
  datatype InstallEffect =
    | Announced(name: string, dst: string)   // the progress line
    | Copied(src: string, dst: string)       // `shutil.copytree`
    | Written(path: string, json: Json)      // the rewritten `kernel.json`

  /** The rewritten `kernel.json` of the copy of `spec`, read where the copy put it. */
  function Wrapped(spec: (string, string), read: string -> Option<Json>, rewrite: Json -> Result<Json, InstallError>): Result<Json, InstallError> {
    var path := KernelJsonPath(Destination(spec.1));
    match read(path)
    case None => Err(NoKernelJson(path))
    case Some(j) => rewrite(j)
  }

  /** The effects of starting on `spec`: the progress line and the copy. */
  function Started(spec: (string, string)): seq<InstallEffect> {
    [Announced(spec.0, Destination(spec.1)), Copied(spec.1, Destination(spec.1))]
  }

  /** Every spec of `sel` is rewritten without error. */
  predicate AllWrapped(sel: seq<(string, string)>, read: string -> Option<Json>, rewrite: Json -> Result<Json, InstallError>) {
    forall i :: 0 <= i < |sel| ==> Wrapped(sel[i], read, rewrite).Ok?
  }

  /** The effects of wrapping every spec of `sel`, all of whose rewrites succeed. */
  function Plan(sel: seq<(string, string)>, read: string -> Option<Json>, rewrite: Json -> Result<Json, InstallError>): seq<InstallEffect>
    requires AllWrapped(sel, read, rewrite)
  {
    if sel == [] then []
    else
      var spec := sel[|sel| - 1];
      Plan(sel[..|sel| - 1], read, rewrite) + Started(spec) +
        [Written(KernelJsonPath(Destination(spec.1)), Wrapped(spec, read, rewrite).value)]
  }

  /** Selecting from two lists one after the other selects from each. */
  lemma {:induction false} SelectFromSplit(a: seq<(string, string)>, b: seq<(string, string)>, names: seq<string>)
    ensures SelectFrom(a + b, names) == SelectFrom(a, names) + SelectFrom(b, names)
  {
    if a == [] {
      assert a + b == b;
    } else {
      var head := if Wraps(a[0].0, names) then [a[0]] else [];
      assert (a + b)[0] == a[0];
      assert (a + b)[1..] == a[1..] + b;
      assert SelectFrom(a + b, names) == head + SelectFrom(a[1..] + b, names);
      SelectFromSplit(a[1..], b, names);
    }
  }

  /** A wrapped entry is selected right after what is selected before it. */
  lemma SelectedAt(specs: seq<(string, string)>, n: nat, names: seq<string>)
    requires n < |specs| && Wraps(specs[n].0, names)
    ensures var pre, all := SelectFrom(specs[..n], names), SelectFrom(specs, names);
      |pre| < |all| && all[..|pre|] == pre && all[|pre|] == specs[n]
  {
    var rest := specs[n + 1..];
    assert specs == specs[..n] + ([specs[n]] + rest);
    SelectFromSplit(specs[..n], [specs[n]] + rest, names);
    assert ([specs[n]] + rest)[1..] == rest;
  }

  /** One more entry of the table is decided after those before it. */
  lemma SelectStep(specs: seq<(string, string)>, n: nat, names: seq<string>)
    requires n < |specs|
    ensures Wraps(specs[n].0, names) ==> SelectFrom(specs[..n + 1], names) == SelectFrom(specs[..n], names) + [specs[n]]
    ensures !Wraps(specs[n].0, names) ==> SelectFrom(specs[..n + 1], names) == SelectFrom(specs[..n], names)
  {
    assert specs[..n + 1] == specs[..n] + [specs[n]];
    SelectFromSplit(specs[..n], [specs[n]], names);
    assert [specs[n]][1..] == [];
    assert SelectFrom(specs[..n], names) + [] == SelectFrom(specs[..n], names);
  }

  /** Wrapping one more spec adds its start and its rewritten `kernel.json` to the effects. */
  lemma PlanSnoc(sel: seq<(string, string)>, spec: (string, string), read: string -> Option<Json>,
                 rewrite: Json -> Result<Json, InstallError>)
    requires AllWrapped(sel, read, rewrite) && Wrapped(spec, read, rewrite).Ok?
    ensures AllWrapped(sel + [spec], read, rewrite)
    ensures Plan(sel + [spec], read, rewrite) == Plan(sel, read, rewrite) + Started(spec) +
      [Written(KernelJsonPath(Destination(spec.1)), Wrapped(spec, read, rewrite).value)]
  {
    var next := sel + [spec];
    assert forall i :: 0 <= i < |sel| ==> next[i] == sel[i];
    assert next[..|next| - 1] == sel;
  }

  /** A run that fails at the `n`th entry of the table has failed at a selected spec, after the specs selected before it. */
  lemma StopsAt(specs: seq<(string, string)>, n: nat, read: string -> Option<Json>,
                rewrite: Json -> Result<Json, InstallError>, effects: seq<InstallEffect>)
    requires n < |specs| && Wraps(specs[n].0, Keys(specs)) && Wrapped(specs[n], read, rewrite).Err?
    requires AllWrapped(SelectFrom(specs[..n], Keys(specs)), read, rewrite)
    requires effects == Plan(SelectFrom(specs[..n], Keys(specs)), read, rewrite) + Started(specs[n])
    ensures var sel := Selected(specs);
      && !AllWrapped(sel, read, rewrite)
      && exists k :: 0 <= k < |sel| && AllWrapped(sel[..k], read, rewrite) &&
           Wrapped(sel[k], read, rewrite) == Wrapped(specs[n], read, rewrite) &&
           effects == Plan(sel[..k], read, rewrite) + Started(sel[k])
  {
    var sel := Selected(specs);
    SelectedAt(specs, n, Keys(specs));
    var k := |SelectFrom(specs[..n], Keys(specs))|;
    assert sel[..k] == SelectFrom(specs[..n], Keys(specs)) && sel[k] == specs[n];
  }

  /** The loop of `do_install` for any rewrite of `kernel.json`. */
  method Walk(specs: seq<(string, string)>, read: string -> Option<Json>, rewrite: Json -> Result<Json, InstallError>)
    returns (effects: seq<InstallEffect>, r: Result<(), InstallError>)
    ensures var sel := Selected(specs);
      && (r.Ok? <==> AllWrapped(sel, read, rewrite))
      && (r.Ok? ==> effects == Plan(sel, read, rewrite))
      && (r.Err? ==> exists k :: 0 <= k < |sel| && AllWrapped(sel[..k], read, rewrite) &&
                       Wrapped(sel[k], read, rewrite) == Err(r.error) &&
                       effects == Plan(sel[..k], read, rewrite) + Started(sel[k]))
  {
    var names := Keys(specs);
    effects := [];
    for n := 0 to |specs|
      invariant var sel := SelectFrom(specs[..n], names);
        && AllWrapped(sel, read, rewrite)
        && effects == Plan(sel, read, rewrite)
    {
      var spec := specs[n];
      SelectStep(specs, n, names);
      if !Wraps(spec.0, names) {
        continue;
      }
      var dst := Destination(spec.1);
      effects := effects + Started(spec);
      var wrapped := Wrapped(spec, read, rewrite);
      if wrapped.Err? {
        StopsAt(specs, n, read, rewrite, effects);
        return effects, Err(wrapped.error);
      }
      PlanSnoc(SelectFrom(specs[..n], names), spec, read, rewrite);
      effects := effects + [Written(KernelJsonPath(dst), wrapped.value)];
    }
    assert specs[..|specs|] == specs;
    return effects, Ok(());
  }

  /**
   * `do_install`: walks the table once, skipping the specs that are not
   * wrapped; for each other spec it announces and copies the directory, then
   * rewrites the copy's `kernel.json`. The first failing rewrite ends the run,
   * after its directory was copied.
   */
  method DoInstall(specs: seq<(string, string)>, read: string -> Option<Json>)
    returns (effects: seq<InstallEffect>, r: Result<(), InstallError>)
    ensures var sel := Selected(specs);
      && (r.Ok? <==> AllWrapped(sel, read, WrapKernelJson))
      && (r.Ok? ==> effects == Plan(sel, read, WrapKernelJson))
      && (r.Err? ==> exists k :: 0 <= k < |sel| && AllWrapped(sel[..k], read, WrapKernelJson) &&
                       Wrapped(sel[k], read, WrapKernelJson) == Err(r.error) &&
                       effects == Plan(sel[..k], read, WrapKernelJson) + Started(sel[k]))
  {
    effects, r := Walk(specs, read, WrapKernelJson);
  }

  /** Nothing is selected from entries none of which is wrapped. */
  lemma {:induction false} SelectFromNone(specs: seq<(string, string)>, names: seq<string>)
    requires forall i :: 0 <= i < |specs| ==> !Wraps(specs[i].0, names)
    ensures SelectFrom(specs, names) == []
  {
    if specs != [] {
      SelectFromNone(specs[1..], names);
    }
  }

  /** The table after an installation: every wrapped spec gains a copy `<name>-genv` in `<dir>-genv`. */
  function Installed(specs: seq<(string, string)>): seq<(string, string)> {
    var sel := Selected(specs);
    specs + seq(|sel|, i requires 0 <= i < |sel| => (sel[i].0 + Suffix, Destination(sel[i].1)))
  }

  /** Every copy's name and directory end with `-genv`, and no wrapper is ever wrapped. */
  lemma SelectedAreNotWrappers(specs: seq<(string, string)>)
    ensures forall s :: s in Selected(specs) ==> !EndsWith(s.0, Suffix) && EndsWith(Destination(s.1), Suffix)
  {
    SelectFromMembers(specs, Keys(specs));
    forall s | s in Selected(specs) ensures EndsWith(Destination(s.1), Suffix) {
      EndsWithAppended(s.1, Suffix);
    }
  }

  /**
   * Idempotence: once the copies are in the table (named after the spec they
   * wrap), running the installation again wraps nothing.
   */
  lemma ReinstallWrapsNothing(specs: seq<(string, string)>)
    ensures Selected(Installed(specs)) == []
  {
    var sel := Selected(specs);
    var table := Installed(specs);
    var names := Keys(table);
    SelectFromMembers(specs, Keys(specs));
    forall i | 0 <= i < |table| ensures !Wraps(table[i].0, names) {
      var s := table[i];
      if i >= |specs| {
        EndsWithAppended(sel[i - |specs|].0, Suffix);
      } else if !EndsWith(s.0, Suffix) {
        assert s.0 == Keys(specs)[i];
        if s.0 + Suffix !in Keys(specs) {
          assert s in sel;
          var k :| 0 <= k < |sel| && sel[k] == s;
          assert names[|specs| + k] == s.0 + Suffix;
        } else {
          var j :| 0 <= j < |specs| && Keys(specs)[j] == s.0 + Suffix;
          assert names[j] == s.0 + Suffix;
        }
      }
    }
    SelectFromNone(table, names);
  }
}
