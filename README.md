# Attach to Docker Container — dialog model

A Dafny model of the dialog of the Visual Studio extension "Attach to Docker
Container" (`AttachToDockerContainerDialog`). The dialog lists the running
containers, offers the debuggable process names from
`container-debug-config.json`, asks `docker exec -it <container> pidof <process>`
for the process ids and, on "Attach", stores the chosen values and hands the
container, the debugger path and the PID to the debug adapter launcher.

The model has these modules:

- `Text`: the .NET string operations the dialog relies on.
  `char.IsWhiteSpace`, `Trim`, `string.IsNullOrWhiteSpace`, `Split` on one
  character, `Split` on the line breaks `"\r\n"`, `"\r"` and `"\n"`, and
  `StringSplitOptions.RemoveEmptyEntries`.
- `Ordering`: the ordinal string order and an insertion sort by it. This
  stands for `OrderBy(n => n)`.
- `Int32Text`: `int.TryParse` on a trimmed token, and decimal formatting as
  its inverse.
- `DockerOutput`: `GetContainerNames` (`ContainerNames`) and the PID parsing
  of `UpdateDotNetPIDs` (`ParsePids`), together with the docker commands the
  dialog issues.
- `ConfigLoading`: `GetConfig`. The module holds the code as written and the
  corrected definition that the rest of the model uses (see Findings).
- `Dialog`: the class `AttachDialog` with the dialog's state as fields. The
  constructor sets the initial selections. `Recompute` is `UpdateDotNetPIDs`.
  The selection handlers are there, and `Attach` is `AttachButton_Click`.
- `Scenarios`: concrete docker answers and what the model makes of them.

Docker's answers, the stored settings and the outcome of reading the
configuration file are parameters. Persisting the settings and launching the
debugger are returned as a sequence of effects, in order.

## Model

| member | source | states |
|---|---|---|
| Text.TrimStartSpec | AttachToDockerContainerDialog.xaml.cs:110 | `TrimStart` drops only leading white space and then stops at a non-white-space character or the end. |
| Text.TrimEndSpec | AttachToDockerContainerDialog.xaml.cs:110 | `TrimEnd` drops only trailing white space and then stops at a non-white-space character or the start. |
| Text.TrimCutsOnlyWhiteSpace | AttachToDockerContainerDialog.xaml.cs:110 | `Trim(s)` is a contiguous piece of `s`, and everything cut off around it is white space. |
| Text.TrimUnpads | AttachToDockerContainerDialog.xaml.cs:110 | White-space padding around a token with no white space at either end is removed exactly, leaving the token. |
| Text.NullOrWhiteSpaceTrimsEmpty | AttachToDockerContainerDialog.xaml.cs:99-104 | `string.IsNullOrWhiteSpace` holds exactly for `null` and for a string that trims to nothing. |
| Text.TrimEmptyIffWhiteSpace | AttachToDockerContainerDialog.xaml.cs:99-110 | A string trims to empty if and only if it is white space only. |
| Text.JoinSplit | AttachToDockerContainerDialog.xaml.cs:109 | Joining the pieces of a split with the separator gives the original string back. |
| Text.SplitJoin | AttachToDockerContainerDialog.xaml.cs:109 | Splitting pieces that hold no separator, once joined, gives exactly those pieces back. |
| Text.SplitWhiteSpace | AttachToDockerContainerDialog.xaml.cs:109 | Every piece of a white-space-only string is white space only. |
| Text.LinesJoinLines | AttachToDockerContainerDialog.xaml.cs:138 | Lines written with any of the three line-break conventions read back as written, with `"\r\n"` taken as one break. |
| Text.LinesStep | AttachToDockerContainerDialog.xaml.cs:138 | A line followed by a line break and the rest splits into that line followed by the lines of the rest. |
| Text.RemoveEmptyDropsOnlyEmpty | AttachToDockerContainerDialog.xaml.cs:137-138 | Removing empty entries drops exactly the empty pieces and keeps every other piece as often as it occurs. |
| Ordering.BelowTotal | AttachToDockerContainerDialog.xaml.cs:139 | Any two strings are comparable in ordinal order. |
| Ordering.BelowTransitive | AttachToDockerContainerDialog.xaml.cs:139 | The ordinal order is transitive. |
| Ordering.BelowAntisymmetric | AttachToDockerContainerDialog.xaml.cs:139 | Two strings each below the other are equal. |
| Ordering.InsertSorted | AttachToDockerContainerDialog.xaml.cs:139 | Inserting into a sorted sequence keeps it sorted. |
| Ordering.InsertPermutes | AttachToDockerContainerDialog.xaml.cs:139 | Insertion adds exactly the one element. |
| Ordering.SortCorrect | AttachToDockerContainerDialog.xaml.cs:139 | `Sort` returns a sorted permutation of its input. |
| Ordering.SortSortedIsIdentity | AttachToDockerContainerDialog.xaml.cs:139 | Sorting an already sorted sequence changes nothing. |
| Ordering.SortedPermutationUnique | AttachToDockerContainerDialog.xaml.cs:139 | Two sorted permutations of each other are equal, so `Sort` gives the only possible sorted order. |
| Int32Text.ParseInt32 | AttachToDockerContainerDialog.xaml.cs:110 | A parsed value is in the 32-bit signed range, and the token is an optional sign followed by at least one digit and digits only, so a lone sign is rejected. |
| Int32Text.RejectsNonNumeric | AttachToDockerContainerDialog.xaml.cs:110 | A token holding any character other than a digit or a leading sign is rejected. |
| Int32Text.FormatParse | AttachToDockerContainerDialog.xaml.cs:110 | Any integer written in decimal parses back to itself if it fits in 32 bits, and is rejected otherwise (for example 2147483648). |
| Int32Text.PlusSignIgnored | AttachToDockerContainerDialog.xaml.cs:110 | A leading `+` before a string of digits does not change what it parses to. |
| Int32Text.LeadingZeroIgnored | AttachToDockerContainerDialog.xaml.cs:110 | A leading `0` before a non-empty string of digits does not change what it parses to. |
| Int32Text.MinusLeadingZeroIgnored | AttachToDockerContainerDialog.xaml.cs:110 | A `0` between the minus sign and a non-empty string of digits does not change what it parses to. |
| DockerOutput.ListContainersCommandWords | AttachToDockerContainerDialog.xaml.cs:135 | The listing command is the three words `ps`, `--format` and the names template. |
| DockerOutput.PidofCommandWords | AttachToDockerContainerDialog.xaml.cs:106 | For a container and process name without spaces, the command is exactly the words `exec`, `-it`, the container, `pidof` and the process name. |
| DockerOutput.ContainerNames | AttachToDockerContainerDialog.xaml.cs:133-141 | `GetContainerNames` returns exactly the non-empty lines of the listing, each as often as it occurs. |
| DockerOutput.ContainerNamesCorrect | AttachToDockerContainerDialog.xaml.cs:133-141 | The container names are in ordinal order. They are a permutation of the non-empty lines of the listing, so duplicates and white-space-only names stay. No name is empty or holds a line break. |
| DockerOutput.ContainerNamesOfListing | AttachToDockerContainerDialog.xaml.cs:135-140 | A listing that ends every name with the same line break, in any convention, yields exactly those names, sorted. |
| DockerOutput.ParseAllSpec | AttachToDockerContainerDialog.xaml.cs:110-120 | Parsing all tokens succeeds exactly when every token parses, and then yields each token's value in order. |
| DockerOutput.ParseAllOf | AttachToDockerContainerDialog.xaml.cs:110-120 | Tokens that parse one by one to given ids parse as a whole to those ids. |
| DockerOutput.ParsePids | AttachToDockerContainerDialog.xaml.cs:108-113 | A successful parse of the `pidof` answer never yields an empty list of ids. |
| DockerOutput.ParsePidsAllOrNothing | AttachToDockerContainerDialog.xaml.cs:108-120 | The answer yields ids if and only if it has a token and every trimmed token is a 32-bit integer. The ids are then those integers in token order, and one bad token discards the valid ones. |
| DockerOutput.WhiteSpaceAnswerHasNoPids | AttachToDockerContainerDialog.xaml.cs:108-117 | An empty or white-space-only answer is the "cannot find" case. |
| DockerOutput.PidofAnswerParses | AttachToDockerContainerDialog.xaml.cs:106-120 | Any non-empty list of 32-bit ids that `pidof` writes space-separated is read back exactly, in order. The final line break may be `"\n"`, `"\r\n"` (as a terminal hands it back) or `"\r"`. |
| DockerOutput.TokenParses | AttachToDockerContainerDialog.xaml.cs:110 | An id in decimal, followed by any white space other than the space, trims and parses to that id. |
| DockerOutput.PidofAnswerTokens | AttachToDockerContainerDialog.xaml.cs:108-109 | The tokens of a `pidof` answer are the decimal ids, and the last one still carries the trailing line break. |
| DockerOutput.ParsePidsOfJoin | AttachToDockerContainerDialog.xaml.cs:108-111 | Tokens written with single spaces between them are exactly the tokens the parser reads. |
| ConfigLoading.Failure | AttachToDockerContainerDialog.xaml.cs:152-168 | The `try` block completes exactly when a non-null document holds a non-empty name array. An unreadable document fails with its own message; a `null` document fails with the null-reference message, a `null` array with the null-argument message, and an empty array with "Missing or empty DebuggableProcessNames.". |
| ConfigLoading.StatusFor | AttachToDockerContainerDialog.xaml.cs:169-176 | The status is the success text exactly when the `try` block completed; otherwise it starts with the fixed failure prefix. |
| ConfigLoading.GetConfigAsWritten | AttachToDockerContainerDialog.xaml.cs:148-179 | The code as written reports success if and only if nothing failed. For any deserialized document it returns whatever the serializer produced, `null` included. When reading threw, it returns the default config and the prefix followed by the exception's message. |
| ConfigLoading.AsWrittenReturnsNoNames | AttachToDockerContainerDialog.xaml.cs:163-165 | As written, a `null` document returns a `null` config, and a `null` name array is returned as it is, each with a failure status. |
| ConfigLoading.GetConfig | AttachToDockerContainerDialog.xaml.cs:148-179 | Success status if and only if there are process names, if and only if a non-null document held a non-empty name array, and then those are the names. Every failure yields the empty default list and a status that is exactly the fixed prefix followed by the cause's message. |
| ConfigLoading.GetConfigAgreesWhereDefined | AttachToDockerContainerDialog.xaml.cs:237-245 | Wherever the code as written returns a name array, the corrected loader returns the same names and the same status. |
| Dialog.InitialSelection | AttachToDockerContainerDialog.xaml.cs:40-43 | The stored value when the list holds it, otherwise the first entry, and nothing only for an empty list. The selection is always listed. |
| Dialog.DebuggerPath | AttachToDockerContainerDialog.xaml.cs:45 | The stored debugger path whenever one was stored, even an empty one, and `/vsdbg/vsdbg` otherwise. |
| Dialog.PidItems | AttachToDockerContainerDialog.xaml.cs:120-122 | One PID entry per id, in order. |
| Dialog.Answer | AttachToDockerContainerDialog.xaml.cs:108-129 | After a `pidof` answer the first entry is selected. Attach is enabled if and only if the answer parsed. The PID chooser is enabled if and only if there is more than one id. Otherwise the list holds only the "Cannot find dotnet process!" message. |
| Dialog.AttachDialog.constructor | AttachToDockerContainerDialog.xaml.cs:22-66 | Containers and processes start on the stored value or the first entry, and the path starts on the stored one or the default. An empty process list gives a disabled chooser holding `""`, with attach off and no PIDs. The PID panel is recomputed once, and the state is valid. |
| Dialog.AttachDialog.Recompute | AttachToDockerContainerDialog.xaml.cs:93-131 | Both flags go off. A blank container or process stops the recompute with no command and leaves the list as it was. Otherwise the `pidof` command for the selection is issued and the panel becomes the parsed answer. Attach is on if and only if the selection is not blank and the answer parsed. The invariant is kept. |
| Dialog.AttachDialog.SelectContainer | AttachToDockerContainerDialog.xaml.cs:88-91 | Picking the selected container again changes nothing. Picking another one recomputes the PID panel for the new selection. |
| Dialog.AttachDialog.SelectProcess | AttachToDockerContainerDialog.xaml.cs:68-71 | Picking the selected process name again changes nothing. Picking another one recomputes the PID panel. |
| Dialog.AttachDialog.SelectPid | AttachToDockerContainerDialog.xaml.cs:125-126 | The user can move the PID selection only while the chooser is enabled, and the invariant is kept. |
| Dialog.AttachDialog.EditDebuggerPath | AttachToDockerContainerDialog.xaml.cs:45 | Editing the debugger path changes only the path and keeps the invariant. |
| Dialog.AttachDialog.Attach | AttachToDockerContainerDialog.xaml.cs:73-86 | Attach is only possible on a listed container and process with a real PID selected. It persists (container, debugger path, process name) and then launches (container, debugger path, PID), in that order. |
| Dialog.AttachThenReopen | AttachToDockerContainerDialog.xaml.cs:77-84 | A dialog reopened after an attach, over the same containers and configuration, starts on the container, process and debugger path that were just used. |
| Scenarios.ListingIsSorted | AttachToDockerContainerDialog.xaml.cs:135-140 | The listing `web`, `api`, `db` becomes `api`, `db`, `web`. |
| Scenarios.TwoPidsPanel | AttachToDockerContainerDialog.xaml.cs:118-129 | The answer `1234 5678` lists both ids, selects the first, and enables attach and the chooser. |
| Scenarios.GarbageTokenPanel | AttachToDockerContainerDialog.xaml.cs:113-117 | The answer `1234 abc` shows only the "cannot find" message, with attach and the chooser disabled. |
| Scenarios.EmptyAnswer | AttachToDockerContainerDialog.xaml.cs:113 | An empty answer has no ids. |
| Scenarios.LineBreakAnswer | AttachToDockerContainerDialog.xaml.cs:109-113 | A lone line break is one token that trims to nothing, so the answer has no ids. |
| Scenarios.LineBreakIsNoSeparator | AttachToDockerContainerDialog.xaml.cs:109 | Only the space separates ids, so `1234\n5678` is one bad token. |
| Scenarios.TerminalLineBreakAccepted | AttachToDockerContainerDialog.xaml.cs:106-110 | The answer `1234 5678\r\n`, as a terminal hands it back, yields the ids 1234 and 5678. |
| Scenarios.ZeroAndNegativeIdsAccepted | AttachToDockerContainerDialog.xaml.cs:110 | The sign of an id is not checked: `0 -5\n` yields the ids 0 and -5. |

## Left out

- `DockerCli.Execute` is not part of this model. Its output is a parameter: `listing` for `docker ps`, `output` for `pidof`. `Recompute` returns the command it would issue. The commands themselves are `ListContainersCommand` and `PidofCommand`.
- Reading `container-debug-config.json`, finding the solution root through the DTE service, and the `JavaScriptSerializer` are left out. Their outcome is the input `ConfigSource`: an exception message or the deserialized object.
- `Dialog.AttachDialog.constructor` takes the results of `GetConfig` and `GetContainerNames` (lines 31 and 36) as arguments, and does not call them itself. `Dialog.AttachThenReopen` passes `GetConfig(src)` and `ContainerNames(listing)`.
- The settings store (lines 182-235) is left out: `GetSettings`, `SetSettings`, and creating the collection. Stored values come in as `Settings`, with `None` for a key never written. Writing them is the `Persist` effect.
- `DebugAdapterHostLauncher.Launch` becomes the `Launch` effect. `Close()` and the window itself are not modelled.
- WPF rendering, status colours, `InitializeComponent`, `ThreadHelper` checks and event wiring are left out. A selection change is modelled as the call that its handler makes.
- A combo box's `Text` is taken to be its selected item. `Attach` persists the selections for that reason.
- Ordering.Sort: it uses ordinal code-point order, while `OrderBy` uses the current culture's comparer. Names differing only in case or in culture-specific collation may come out in another order.
- Ordering.Below: it compares Unicode code points, while .NET strings compare as UTF-16 code units. The two orders differ when a character beyond U+FFFF is compared with one in U+E000 to U+FFFF.
- Int32Text.ParseInt32: it accepts an optional sign and ASCII digits within the 32-bit range. It does not model the culture-specific signs, the trailing NUL characters or the leading and trailing white space that `int.TryParse` also accepts. Tokens reach it already trimmed, so the white space makes no difference.
- Only the space character separates ids, so a tab or a line break between two ids makes one bad token. Any 32-bit integer is accepted, zero and negative ones included, as `Scenarios.LineBreakIsNoSeparator` and `Scenarios.ZeroAndNegativeIdsAccepted` show.
- The failure status holds the literal text `<solution root>`, as in the code, and not the actual solution directory.
- The exception messages for a `null` config and for a `null` name array are the usual .NET messages. The exact wording depends on the runtime.

## Findings

| source | as written | input that shows it | evidently intended | confidence | as-written member | corrected member |
|---|---|---|---|---|---|---|
| AttachToDockerContainerDialog.xaml.cs:163-179 | `config` is replaced by the serializer's result before the check on its name array, and the `catch` returns that value. A `null` document therefore returns a `null` config, and a `null` array is returned as it is. The constructor then dereferences it (lines 37 and 47) and throws, although loading reported a failure. | the file holding `null`, or `{"DebuggableProcessNames": null}` | every failure falls back to the default config with an empty name array, so the dialog opens with a disabled process chooser | medium, not executed | ConfigLoading.AsWrittenReturnsNoNames | ConfigLoading.GetConfig |
