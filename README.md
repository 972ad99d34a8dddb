# genv for JupyterLab, modelled in Dafny

`jupyterlab_genv` lets a notebook's kernel run inside a *genv environment*: a
named set of GPUs. The model covers the extension's logic on both sides.

The front end in `src/`:

- `handleClick` in `index.tsx` runs when the toolbar button is clicked. It
  looks up the kernel's environment. An unbound kernel gets an environment
  from a chooser dialog and is bound to it. The environment is then offered
  for configuration in a terminal.
- `openTerminal` builds the script that is typed into that terminal.
- The devices and environments panels compute one label per row.
- The chooser's label table lives in `dialogs.tsx`.
- The API client in `handler.ts` decodes each server reply into a value or an
  error.

The Python side:

- The device and environment queries in `genv/devices.py` and `genv/envs.py`.
  Each runs a `genv` command and parses its CSV output.
- The kernel provisioner in `genv_provisioner.py`. It sets
  `CUDA_VISIBLE_DEVICES` to the devices of the kernel's environment.
- The `install` command in `__main__.py`. It wraps each installed kernel spec
  that is not itself a `-genv` wrapper and has no `-genv` wrapper yet, in a
  `-genv` copy whose `kernel.json` names the genv provisioner.

Modules follow the source files:

| module | models |
|---|---|
| `Index` | `src/index.tsx` |
| `Dialogs` | `src/dialogs.tsx` |
| `Handler` | `src/handler.ts` |
| `Devices` | `genv/devices.py` |
| `Envs` | `genv/envs.py` |
| `Provisioner` | `genv_provisioner.py` |
| `Install` | `__main__.py` |

Four modules hold shared definitions:

- `Text`: splitting, joining and decimal numerals.
- `OrderedMap`: the insertion order that a JavaScript `Map` and a Python
  `dict` share.
- `JsonValue`: JSON values and JavaScript truthiness.
- `CliOutput`: `splitlines` and the `int()` list comprehensions.

Collaborators the code only calls are parameters of the model:

- dialogs;
- the server;
- `JSON.parse`, `json.load` and `genv.envs.find`;
- the `genv` command runner;
- the kernel-spec table.

`HandleClick` returns the sequence of calls it makes to these collaborators.
`RequestAPI`, `DoInstall` and `PreLaunch` return or record their observable
effects.

The model follows the code in three places where a reader might expect
otherwise:

- Choosing "Create a new environment" returns the kernel id. That value is
  truthy, so `Handler.activate(kernel.id, kernel.id)` is called like any other
  pick (`CreateNewActivatesKernel`).
- Suppose a non-ok reply has a body of `null`. Evaluating `data.message`
  then throws a `TypeError` before any `ResponseError` is built.
- Reading the body (`response.text()`) can itself fail. That error is not
  wrapped: it is neither a `NetworkError` nor a `ResponseError`.

## Model

| member | source | states |
|---|---|---|
| Index.HandleClick | src/index.tsx:68-103 | No kernel: only the no-kernel dialog, then the kernel chooser iff it is accepted. A kernel whose spec is missing or does not end in `-genv`: only the not-supported dialog, then the chooser iff accepted. A server call implies a genv kernel. A genv kernel runs as `GenvRun` says. Every run is `Ordered`. A run that fails ends at the server call that threw and never configures or opens a terminal. |
| Index.ClickGenvKernel | src/index.tsx:76-92 | A genv kernel is looked up first, and a failed lookup ends the run. A bound kernel goes straight to configuration with its eid: no listing and no activation. An unbound one runs as `BindRun` says. The run is `Ordered`, and a failed run ends at the call that threw and is quiet. |
| Index.IsGenvKernel | src/index.tsx:75 | A kernel is bound only when it has a spec whose name ends with `-genv`, case-sensitively. No contract of its own; `HandleClick`'s contract states its use. |
| Index.Bind | src/index.tsx:78-86 | Environments are listed exactly once, first. A failed listing ends the block. The chooser receives the offered items, and the eid is the chooser's result mapped through the label table. A cancelled or empty pick ends the block with no activation. A pick is activated exactly once, with the kernel id and the pick, and that activation's failure is the outcome. |
| Index.BindThenConfigure | src/index.tsx:78-92 | An unbound kernel: listing, choice and activation as `Bind` says. Configuration follows only a successful activation of a non-empty pick and is offered for that pick. The run is `Ordered`, and a failed run is quiet. |
| Index.ConfiguredPick | src/index.tsx:84-91 | A successful activation of a non-empty pick followed by its configuration is a run in which the listing occurs once, first, and the pick is activated once, third, then configured. |
| Index.CreateNewActivatesKernel | src/index.tsx:81-84 | If the kernel id is non-empty, no environment is labelled like the placeholder, and the user picks "Create a new environment", the kernel is activated under its own id. (With an empty kernel id the placeholder text itself would be activated; the lemma does not cover that case.) When that activation succeeds, configuration is offered for the kernel id. |
| Index.ConfigureSteps | src/index.tsx:88-91 | The `if (eid)` tail: the configuration dialog for the eid, then `openTerminal` only when it is accepted. No contract of its own; `ConfigureOrdered`, `ConfiguredPick` and the contracts of `Bind`, `BindThenConfigure` and `ClickGenvKernel` are stated with it. |
| Index.ConfigureOrdered | src/index.tsx:88-91 | Appending the configuration steps for a non-empty eid after quiet steps keeps the run ordered. The terminal is opened only right after an accepted configuration, and its input names the configured eid. |
| Index.OrderedAfterFind | src/index.tsx:76 | Putting the lookup in front of an ordered run keeps it ordered, and keeps a quiet run quiet. |
| Index.QuietOrdered | src/index.tsx:93-102 | A proof helper, the base case of `Ordered`: a run with no configuration and no terminal step is ordered. The no-kernel and not-supported paths and every failed run rely on it. |
| Index.TerminalLines | src/index.tsx:44-59 | The lines typed into the terminal: the guidance comment lines and the empty line, then `eval "$(genv init -)"` and `genv activate --id <eid>`. No contract of its own. |
| Index.TerminalInput | src/index.tsx:42-62 | The text typed into the terminal: the guidance lines, `eval "$(genv init -)"` and `genv activate --id <eid>`, each followed by a newline. No contract of its own; `TerminalInputEnds` and `TerminalInputInjective` state its properties. |
| Index.TerminalInputEnds | src/index.tsx:42-62 | The terminal input ends with `eval "$(genv init -)"` and `genv activate --id <eid>`, each followed by a newline. |
| Index.TerminalInputInjective | src/index.tsx:58-62 | Different eids give different terminal inputs. |
| Index.TerminalSteps | src/index.tsx:36-64 | `openTerminal`'s calls: open the terminal, then send the input only when a terminal was handed back. No contract of its own; see `TerminalStepsSend`. |
| Index.TerminalStepsSend | src/index.tsx:36-64 | The terminal is opened first. Input is sent exactly when a terminal is handed back, once, right after the open, and it is the terminal input for the eid. |
| Index.UnlinesEndsWith | src/index.tsx:58-62 | With any guidance lines, the script ends with the two command lines, each followed by a newline. |
| Index.ScriptInjective | src/index.tsx:58-62 | With the same guidance lines, equal scripts activate equal eids. |
| Index.UnlinesTwoMore | src/index.tsx:61-62 | Adding two lines to the script appends each of them followed by a newline. |
| Index.DeviceState | src/index.tsx:153-157 | The text after a GPU's index starts with `:` and has at least three characters. |
| Index.DeviceStateInjective | src/index.tsx:153-157 | The text tells a free GPU from a used one, and a GPU used by one environment from one used by another. |
| Index.NumeralThenColon | src/index.tsx:154-156 | A numeral followed by text starting with `:` is read off unambiguously. |
| Index.DeviceLabel | src/index.tsx:153-157 | `GPU <index>` followed by the device's state text. No contract of its own; `DeviceLabelInjective` and `DeviceRows` state its properties. |
| Index.DeviceLabelInjective | src/index.tsx:149-157 | Two device rows are equal only when their indices are equal and their states are equal. |
| Index.DeviceRows | src/index.tsx:149-160 | One row per device, in index order. Row `i` is `GPU i: used by environment <eid>` or `GPU i: available`. All rows are distinct. |
| Index.EnvLabel | src/index.tsx:180-184 | `<eid> <user>`, followed by ` <name>` only when the name is non-empty. No contract of its own; `EnvLabelFields` and `EnvRows` state its properties. |
| Index.EnvLabelFields | src/index.tsx:180-184 | For space-free fields, an environment row splits on spaces into eid and user, followed by the name exactly when it is non-empty. |
| Index.EnvRows | src/index.tsx:177-187 | One row per environment, in list order: `<eid> <user>`, then ` <name>` when the name is non-empty. |
| Dialogs.Desc | src/dialogs.tsx:52-54 | An environment's label: `<name> (<eid>)` when the name is non-empty, else the eid alone. No contract of its own; `Labels`, `ChosenRoundTrip` and `TwoEnvironmentsExample` state what it is used for. |
| Dialogs.Labels | src/dialogs.tsx:52-58 | The candidate labels: the placeholder first, then each environment's `desc`, in order. |
| Dialogs.Entries | src/dialogs.tsx:56-59 | The table's entries: (placeholder, kernel id) first, then (`desc(env)`, eid) per environment, in order. |
| Dialogs.EntriesKeys | src/dialogs.tsx:56-59 | The entries' keys are exactly the candidate labels. |
| Dialogs.Table | src/dialogs.tsx:56-59 | The `values` map: `new Map` of the entries. No contract of its own; `FromEntries`, `ItemsAreDistinctLabels` and `ChosenLastWins` state its keys, their order and its values. |
| Dialogs.Items | src/dialogs.tsx:56-65 | The offered items are the keys of the label table. No label is offered twice. |
| Dialogs.ItemsAreDistinctLabels | src/dialogs.tsx:56-65 | The offered items are distinct and start with the placeholder. They are exactly the candidate labels. Each is listed in the order of its first occurrence. |
| Dialogs.Chosen | src/dialogs.tsx:67-71 | A cancelled or empty choice is returned unchanged. Any other choice gives a non-empty value. A label that is not in the table is returned as it is. |
| Dialogs.Activate | src/dialogs.tsx:46-72 | The chooser is shown the offered items. A cancelled or empty answer is returned as it is. Any other answer gives a non-empty value, so activation follows exactly when the user picked something. |
| Dialogs.ChosenLastWins | src/dialogs.tsx:56-59 | A label shared by several environments maps to the eid of the last of them. When that eid is empty, the label itself comes back, through the `\|\|` fallback. |
| Dialogs.ChosenRoundTrip | src/dialogs.tsx:58-68 | An environment with a unique label and a non-empty eid is offered, and choosing its label returns its eid. |
| Dialogs.ChosenPlaceholder | src/dialogs.tsx:57-68 | If no environment is labelled like the placeholder, choosing the placeholder returns the kernel id. When the kernel id is empty, it returns the placeholder text. |
| Dialogs.ChosenUnlisted | src/dialogs.tsx:67-68 | Text that is not a candidate label comes back unchanged. |
| Dialogs.TwoEnvironmentsExample | src/dialogs.tsx:52-68 | An unnamed and a named environment are labelled `a` and `n (b)`, and each label maps back to its eid. |
| Handler.RequestAPI | src/handler.ts:12-46 | The request goes to the base URL joined with `jupyterlab-genv` and the endpoint. A transport failure becomes a `NetworkError`, and no body is read. A failed body read is passed on unwrapped. An empty body is never parsed and stays `""`. A non-empty body is replaced by its JSON value when it parses. Otherwise it is kept as text and a log line is written. The effects are exactly: the request, the read, then the parse attempt and the log line where these happen. An ok status returns the data. A non-ok status rejects it, after the parse attempt. |
| Handler.BodyEffects | src/handler.ts:31-39 | The effects after delivery: the read; for a non-empty text the parse attempt; and the log line only when that text is not JSON. |
| Handler.Rejection | src/handler.ts:41-43 | A non-ok reply raises `ResponseError(data.message)` when that member is truthy, and `ResponseError(data)` otherwise. A `null` body raises a `TypeError` instead. It is never a `NetworkError` or a failed read. |
| Handler.TruthyMessage | src/handler.ts:42 | `data.message` is used exactly when `data` is an object with a `message` member that is truthy, and it is then that member's value. |
| Handler.RejectionCarriesMessage | src/handler.ts:41-42 | An object body with a non-empty `message` is rejected with that message. An empty message rejects with the whole object. |
| Handler.ActivateCall | src/handler.ts:49-62 | `activate` is a POST to `activate`. Its JSON body has exactly the members `eid` and `kernel_id`, in that order, with the given values. |
| Handler.FindCall | src/handler.ts:72-73 | `find` requests `find?kernel_id=` followed by the kernel id, unescaped, with the default options. |
| Handler.FindAnswer | src/handler.ts:73 | A falsy answer (`""`, `null`, `0`, `false`) means "not bound". A truthy answer is returned as it is. |
| Handler.Decoded | src/handler.ts:31-39 | The data of a body text that was read: `""` stays `""`, a JSON text becomes its value, any other text is kept. No contract of its own; `RequestAPI` states the same cases. |
| Handler.Find | src/handler.ts:72-74 | `Handler.find` as one operation: the request goes to `find?kernel_id=<id>` with the default options. A transport failure, a failed read and a non-ok reply are errors. An ok reply gives `FindAnswer` of its data, so a falsy answer means "not bound". |
| Handler.DevicesCall | src/handler.ts:64-66 | `Handler.devices`: the `devices` endpoint with the default options. No contract of its own; see `CallsDiffer`. |
| Handler.EnvsCall | src/handler.ts:68-70 | `Handler.envs`: the `envs` endpoint with the default options. No contract of its own; see `CallsDiffer`. |
| Handler.CallsDiffer | src/handler.ts:48-75 | `activate`, `devices`, `envs` and `find` request four different endpoints. `devices`, `envs` and `find` use the default options, a GET without a body. Only `activate` departs from them. |
| CliOutput.Lines | jupyterlab_genv/genv/devices.py:10 | The lines kept are non-empty and contain no line break. |
| CliOutput.LinesOfUnlines | jupyterlab_genv/genv/envs.py:10 | Non-empty lines, each printed with a newline, are read back as the same lines in order. |
| CliOutput.CsvRowIsLine | jupyterlab_genv/genv/devices.py:10-15 | Fields free of line breaks, joined with commas, form one non-empty line. |
| CliOutput.NumeralIsPlain | jupyterlab_genv/genv/devices.py:15-16 | A decimal numeral holds no comma and no line break. |
| CliOutput.Int | jupyterlab_genv/genv/devices.py:16 | `int()` succeeds exactly on a non-empty string of digits, with its decimal value. Otherwise the error names the text. |
| CliOutput.Ints | jupyterlab_genv/genv/envs.py:21 | Every piece as an integer, in order, exactly when all pieces are numbers. Otherwise the error is that of the first piece that is not. |
| CliOutput.IntList | jupyterlab_genv/genv/envs.py:21 | `[int(p) for p in s.split(sep) if len(p) > 0]`: `Ints` of the non-empty pieces. No contract of its own; `IntListOfJoin` states its round trip. |
| CliOutput.IntsOfNumerals | jupyterlab_genv/genv/devices.py:26 | Numbers printed in decimal are read back unchanged. |
| CliOutput.IntListOfJoin | jupyterlab_genv/genv/devices.py:26 | Numbers printed in decimal and joined with a non-digit separator are read back by the split, filter and `int` comprehension unchanged. |
| Devices.Command | jupyterlab_genv/genv/devices.py:5-6 | `_exec`: a device query's command line is `devices ` followed by the query. No contract of its own. |
| Devices.PsCommand | jupyterlab_genv/genv/devices.py:9 | The query `ps --format csv --no-header --timestamp`, under the `devices ` prefix. No contract of its own; `Ps` runs it. |
| Devices.FindCommand | jupyterlab_genv/genv/devices.py:26 | `find`'s query is `find --eid <eid>` under that prefix. No contract of its own; see `FindCommandWords`. |
| Devices.FindCommandWords | jupyterlab_genv/genv/devices.py:5-6 | For a space-free eid, the `find` query's command line is the words `devices find --eid <eid>`. |
| Devices.Fields | jupyterlab_genv/genv/devices.py:15 | `line.split(',')`. No contract of its own beyond `Split`'s. |
| Devices.Row | jupyterlab_genv/genv/devices.py:15-21 | A `ps` row is accepted exactly when it has four comma fields and the first is an integer. The record holds the second and third fields. Otherwise the error is the field count or the bad first field. |
| Devices.RowOfFields | jupyterlab_genv/genv/devices.py:15-21 | A row printed from an index and three comma-free fields reads back as its eid and env. |
| Devices.PsOutputRows | jupyterlab_genv/genv/devices.py:9-21 | A whole `ps` output of plain rows, one per line, reads back as one record per row, in order. |
| Devices.Ps | jupyterlab_genv/genv/devices.py:8-23 | Runs the `ps --format csv --no-header --timestamp` query through the command runner. One record per non-empty line, in order, exactly when every line is a well-formed row. Otherwise the error is that of the first bad line. |
| Devices.Find | jupyterlab_genv/genv/devices.py:25-26 | `find`'s reading of the command output: split on `,`, empty pieces dropped, every other piece read by `int()`, in order. No contract of its own; `IntListOfJoin`, `VisibleDevicesRoundTrip` and the four examples below state its behaviour. |
| Devices.FindNothing | jupyterlab_genv/genv/devices.py:26 | `""` gives `[]`. |
| Devices.FindList | jupyterlab_genv/genv/devices.py:26 | `0,2` gives `[0, 2]`. |
| Devices.FindSkipsEmpty | jupyterlab_genv/genv/devices.py:26 | `1,,3` gives `[1, 3]`: the empty piece is skipped. |
| Devices.FindRejects | jupyterlab_genv/genv/devices.py:26 | `1,x` fails with the `int()` error for `x`. |
| Envs.Command | jupyterlab_genv/genv/envs.py:5-6 | `exec`: an environment query's command line is `exec envs ` followed by the query. No contract of its own. |
| Envs.PsCommand | jupyterlab_genv/genv/envs.py:9 | The query `ps --format csv --no-header --timestamp`, under the `exec envs ` prefix. No contract of its own; `Envs.Ps` runs it. |
| Envs.Fields | jupyterlab_genv/genv/envs.py:15 | `line.split(',')`. No contract of its own beyond `Split`'s. |
| Envs.Row | jupyterlab_genv/genv/envs.py:15-21 | A row needs exactly five comma fields. It keeps eid, user and name, drops the creation time, and reads the pids from the fifth field, split on single spaces with empty pieces skipped. A bad pid is the error. |
| Envs.RowOfFields | jupyterlab_genv/genv/envs.py:15-21 | A row printed from comma-free fields and a space-joined pid list reads back as that environment and those pids. |
| Envs.PsOutputRows | jupyterlab_genv/genv/envs.py:9-22 | A whole `ps` output of plain rows, one per line, reads back as one record per row, in order. |
| Envs.Ps | jupyterlab_genv/genv/envs.py:8-24 | Runs the `ps --format csv --no-header --timestamp` query through the command runner. One record per non-empty line, in order, exactly when every line is a well-formed row. Otherwise the error is that of the first bad line. |
| Envs.PidsSkipEmpty | jupyterlab_genv/genv/envs.py:21 | The pid field `12  7` gives `[12, 7]`: the empty piece between the two spaces is skipped. |
| Envs.PidsReject | jupyterlab_genv/genv/envs.py:21 | The pid field `12 x` fails with the `int()` error for `x`. |
| Provisioner.ResolveEid | jupyterlab_genv/genv_provisioner.py:9 | The bound eid when the lookup gives a non-empty one. Otherwise the kernel id. |
| Provisioner.VisibleDevices | jupyterlab_genv/genv_provisioner.py:13 | The value of `CUDA_VISIBLE_DEVICES`: the decimal indices joined with commas. No contract of its own; the three lemmas below state its properties. |
| Provisioner.VisibleDevicesRoundTrip | jupyterlab_genv/genv_provisioner.py:13 | `devices.find`'s reading of `CUDA_VISIBLE_DEVICES` gives back the indices, in order. |
| Provisioner.VisibleDevicesShort | jupyterlab_genv/genv_provisioner.py:13 | No devices give `""`, and one device gives its bare number. |
| Provisioner.VisibleDevicesInjective | jupyterlab_genv/genv_provisioner.py:13 | Different index lists give different values of the variable. |
| Provisioner.PreLaunch | jupyterlab_genv/genv_provisioner.py:8-15 | Devices are queried for the resolved eid. A parse error propagates and leaves the arguments untouched. Otherwise `kwargs.env` becomes a fresh copy of the launch's `env`, or of the process environment when there is none. In that copy `CUDA_VISIBLE_DEVICES` is the comma join of the indices, and every other variable is kept. The table it was copied from is not changed. |
| Provisioner.Environ.Copy | jupyterlab_genv/genv_provisioner.py:12 | `copy()` is a new table with the same variables. |
| Provisioner.Environ.Update | jupyterlab_genv/genv_provisioner.py:13 | `update()` sets the given variables and keeps the rest. |
| Install.Wraps | jupyterlab_genv/__main__.py:12-13 | A spec is wrapped when its name does not end with `-genv` and `<name>-genv` is not a name in the table. No contract of its own; `SelectFromMembers` states its use. |
| Install.SelectFrom | jupyterlab_genv/__main__.py:11-13 | The selection is no longer than the table. |
| Install.SelectFromMembers | jupyterlab_genv/__main__.py:11-13 | A spec is selected exactly when it is in the table, its name does not end with `-genv`, and `<name>-genv` is not a name in the table. |
| Install.SelectFromSplit | jupyterlab_genv/__main__.py:11-13 | The specs are decided one by one, in table order. |
| Install.SelectedAt | jupyterlab_genv/__main__.py:11-13 | A wrapped spec is selected right after everything selected before it. |
| Install.SelectFromNone | jupyterlab_genv/__main__.py:12-13 | A table none of whose specs is wrapped selects nothing. |
| Install.Selected | jupyterlab_genv/__main__.py:9-13 | The specs wrapped, all decided against the table as it was read at the start. No contract of its own; `SelectFromMembers`, `SelectFromSplit` and `ReinstallWrapsNothing` state its properties. |
| Install.Destination | jupyterlab_genv/__main__.py:15 | A wrapper's directory is the spec's directory followed by `-genv`. No contract of its own; `SelectedAreNotWrappers` states that it ends with `-genv`. |
| Install.SelectedAreNotWrappers | jupyterlab_genv/__main__.py:12-15 | No selected spec is itself a wrapper, and every destination ends with `-genv`. |
| Install.ReinstallWrapsNothing | jupyterlab_genv/__main__.py:9-15 | Add every copy to the table, named `<name>-genv` in `<dir>-genv`. Running the selection again then wraps nothing. |
| Install.KernelJsonPath | jupyterlab_genv/__main__.py:21 | `kernel.json` inside the copy's directory. No contract of its own. |
| Install.Metadata | jupyterlab_genv/__main__.py:28-31 | `kernel_json['metadata']` when the member is present. No contract of its own; `WithMetadataKeeps` and `WrapKernelJsonMetadata` state its use. |
| Install.WrapKernelJson | jupyterlab_genv/__main__.py:23-31 | The rewrite succeeds exactly on an object with a string `display_name` and `metadata` that is absent or an object. A non-object fails as one, and a missing display name raises the `KeyError`. |
| Install.WrapKernelJsonSteps | jupyterlab_genv/__main__.py:26-31 | A successful rewrite renames, defaults `metadata`, and sets the provisioner in it. |
| Install.WithMetadata | jupyterlab_genv/__main__.py:26-29 | The top-level members after the rename and the `metadata` default. No contract of its own; see `WithMetadataKeeps`. |
| Install.WithMetadataKeeps | jupyterlab_genv/__main__.py:26-29 | The rename and the default keep every other member in place. `metadata` is appended, empty, only when absent. |
| Install.WrapKernelJsonMembers | jupyterlab_genv/__main__.py:23-34 | After a rewrite, `display_name` is the old one followed by ` (genv)`. `metadata` is appended when absent, and every other top-level member is unchanged and in place. |
| Install.WrapKernelJsonMetadata | jupyterlab_genv/__main__.py:28-31 | After a rewrite, `metadata` is an object whose `kernel_provisioner` is `{provisioner_name: genv-provisioner}`. Every other metadata member is kept. |
| Install.Started | jupyterlab_genv/__main__.py:17-19 | Starting on a spec: the progress line naming the spec and its destination, then the copy of its directory to that destination. No contract of its own; `Walk` and `Plan` are stated with it. |
| Install.Wrapped | jupyterlab_genv/__main__.py:21-31 | The copy's `kernel.json`, read where the copy put it and rewritten. A missing or unreadable file is an error naming the path. No contract of its own; `Walk` is stated with it. |
| Install.Plan | jupyterlab_genv/__main__.py:11-34 | The effects of a run in which every rewrite succeeds: per selected spec, in order, its start and its rewritten `kernel.json`. No contract of its own; `PlanSnoc` and `Walk` state its use. |
| Install.SelectStep | jupyterlab_genv/__main__.py:11-13 | Deciding one more spec of the table appends it to the selection when it is wrapped, and leaves the selection as it was otherwise. |
| Install.PlanSnoc | jupyterlab_genv/__main__.py:15-34 | Wrapping one more spec successfully appends its progress line, its copy and its rewritten `kernel.json` to the effects. |
| Install.StopsAt | jupyterlab_genv/__main__.py:15-34 | A rewrite that fails at a selected spec means not every selected spec is wrapped, and the effects are those of the specs selected before it plus that spec's start. |
| Install.Walk | jupyterlab_genv/__main__.py:11-34 | The loop, for any rewrite, against the table read once at the start: the selected specs are processed in order. If every rewrite succeeds, the effects are, per spec, the progress line, the copy to `<dir>-genv` and the rewritten `kernel.json`. Otherwise the run stops at the first failing spec, after its copy, with that spec's error. |
| Install.DoInstall | jupyterlab_genv/__main__.py:8-34 | `Walk` with the `kernel.json` rewrite of `do_install`. |
| OrderedMap.Keys | src/dialogs.tsx:63 | The keys of a map, one per entry, in entry order. |
| OrderedMap.Get | src/dialogs.tsx:68 | A lookup finds nothing exactly when the key is absent. |
| OrderedMap.Put | jupyterlab_genv/__main__.py:26-31 | `Map.set` and dict assignment on an insertion-ordered map. No contract of its own; `PutKeys` and `PutGet` state its properties. |
| OrderedMap.PutKeys | jupyterlab_genv/__main__.py:26-31 | Setting a key keeps the keys and their order when the key is present, and appends it otherwise. |
| OrderedMap.PutGet | jupyterlab_genv/__main__.py:26-31 | After setting a key, it maps to the new value, and every other key maps to what it did before. |
| OrderedMap.FromEntries | src/dialogs.tsx:56-59 | A map built from entries has distinct keys. |
| OrderedMap.FromEntriesKeySet | src/dialogs.tsx:56-59 | A map built from entries has exactly the keys the entries mention. |
| OrderedMap.FromEntriesKeyOrder | src/dialogs.tsx:56-63 | Its keys are listed by first occurrence among the entries. |
| OrderedMap.FromEntriesLast | src/dialogs.tsx:56-59 | An entry no later entry overrides decides its key's value. |
| OrderedMap.FromEntriesAbsent | src/dialogs.tsx:56-68 | A key no entry mentions is absent. |
| Text.Split | jupyterlab_genv/genv/devices.py:15 | `str.split(sep)` for one-character separators: at least one piece (`""` gives `[""]`), and no piece holds a separator. |
| Text.Join | jupyterlab_genv/genv_provisioner.py:13 | `sep.join(parts)`. No contract of its own; `SplitJoin` and `CsvRowIsLine` state its properties. |
| Text.EndsWith | src/index.tsx:75 | `endsWith` / `endswith` of a suffix. No contract of its own; `EndsWithAppended` states that a string followed by a suffix ends with it. `IsGenvKernel`, `Wraps` and `SelectedAreNotWrappers` use it. |
| Text.NatToString | jupyterlab_genv/genv_provisioner.py:13 | `str(n)` and `${n}`: at least one character, all decimal digits, and no leading zero for `n >= 10`. |
| Text.ParseNat | jupyterlab_genv/genv/devices.py:16 | The digits-only core of `int()`: it succeeds exactly on a non-empty string of digits. Its value is stated by `ParseNatToString`. |
| Text.Numerals | jupyterlab_genv/genv_provisioner.py:13 | `str(index) for index in indices`: one numeral per number, in order. |
| Text.Unlines | src/index.tsx:61-62 | `.map(line => line + '\n').join('')`: every line followed by a newline, concatenated. No contract of its own; `UnlinesTwoMore`, `UnlinesEndsWith` and `SplitUnlines` state its properties. |
| JsonValue.Truthy | src/handler.ts:42-73 | JavaScript truthiness, which `data.message \|\| data` and `\|\| null` apply: `null`, `false`, `0` and `""` are falsy, everything else is truthy. No contract of its own; `TruthyMessage`, `Rejection` and `FindAnswer` state its use. |
| Text.SplitJoin | jupyterlab_genv/genv/devices.py:15 | Splitting fields joined with one separator, when the fields hold no separator, gives back the fields. |
| Text.ParseNatToString | jupyterlab_genv/genv_provisioner.py:13 | `int(str(n)) == n` for every non-negative `n`. |
| Text.NatToStringInjective | jupyterlab_genv/genv_provisioner.py:13 | Different numbers have different numerals. |
| Text.NonEmpty | jupyterlab_genv/genv/devices.py:26 | The filter `if len(p) > 0`: no longer than its input, and the pieces kept are exactly the non-empty ones. Order and multiplicity are stated by the next two lemmas. |
| Text.NonEmptyKeeps | jupyterlab_genv/genv/devices.py:26 | A list without empty pieces passes the filter unchanged. |
| Text.NonEmptyAppend | jupyterlab_genv/genv/devices.py:26 | The filter distributes over concatenation, so it keeps the order of the pieces and their repetitions. |
| Text.SplitUnlines | jupyterlab_genv/genv/devices.py:10 | Splitting newline-ended lines at the line breaks gives the lines, then one empty piece. |

## Left out

- Plugin wiring is not modelled: the toolbar button, command palette, `MainAreaWidget` and DOM updates. The rows are the label strings, not DOM nodes.
- Dialog rendering, `showDialog`, `InputDialog`, `app.commands.execute` and `session.send` are oracle answers or recorded steps.
- `app.shell.add` (`src/index.tsx:40`) is not modelled. `TerminalSteps` records the opening of the terminal and the input sent to it, but not its placement in the main area (`split-bottom`), which happens between those two steps.
- The panels' refresh (`src/index.tsx:140`, `168`) is not modelled. `DeviceRows` and `EnvRows` start from a list that has already arrived. A rejected `Handler.devices()` or `Handler.envs()` ends `onUpdateRequest` before the old rows are removed, so those rows stay in place.
- There is one shared terminal (`src/index.tsx:29-37`), and a second `terminal:open` hands nothing back. The model takes whether a terminal is handed back as a parameter.
- `async`/`await` is modelled as sequential code, and repeated clicks are not modelled.
- `await kernel.spec` (`src/index.tsx:73`) is taken as already resolved. A rejected spec fetch would end `handleClick` there; the model has no such abort.
- `Handler.envs()` and `Handler.devices()` are taken to reply with a list of records with string fields. A reply that is not an array would make `envs.map` (`src/dialogs.tsx:58`) throw; that failure is not modelled.
- `Handler.find`'s answer reaches `handleClick` as an optional string. `FindAnswer` states the `|| null` rule on the JSON value.
- `URLExt.join` is a recorded list of parts. Its normalisation of slashes is not modelled.
- `JSON.stringify` and `json.dump` are not modelled, so request bodies and written files are JSON values, not text.
- The server's `devices`, `envs`, `find` and `activate` routes are not part of this model.
- Python's `int()` also accepts signs, surrounding whitespace, underscores and non-ASCII digits. The model accepts only ASCII digits.
- `control.exec` is a parameter that gives the command's output, so the `strip()` of that output is not modelled. The subprocess, the `genv ` prefix it adds and its `assert` on the exit code are not modelled either.
- `splitlines` is modelled through its line-break characters. `\r\n` counts as two breaks, which gives the same non-empty lines.
- `devices.ps` is annotated as returning a `Dict` but returns a list. The model returns the list.
- `genv.envs.find` is not defined in `genv/envs.py`; it is a parameter of `PreLaunch`.
- PreLaunch: a `kwargs` entry `env` that is present but `None` is not modelled, and `None.copy()` would fail there. `super().pre_launch` is not modelled.
- Install.WrapKernelJson: a `display_name` that is not a string is rejected, where Python would format it with `str()`.
- A loaded `kernel.json` is taken to have distinct keys, as `json.load` produces.
- `find_kernel_specs`, directory copying and its errors, file reads and writes, and `argparse` are not modelled. The kernel-spec table is a list of (name, directory) pairs, and `read` gives the JSON in a copied `kernel.json`.
- Install.SelectFrom: its own contract states only the length bound. Membership is stated by `SelectFromMembers`, and order by `SelectFromSplit`.
- Index.TerminalInputEnds: the guidance lines are not proved free of newlines, so the script is not proved to split back into exactly its lines.
