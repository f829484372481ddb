/**
 * The attach dialog's state and its transitions: the initial selections, the
 * PID recompute run on every selection change (`UpdateDotNetPIDs`) and the
 * attach submission. Docker's answers, the stored settings and the loaded
 * configuration are parameters; persisting and launching are returned as effects.
 */
module Dialog {
  import opened Wrappers
  import opened Text
  import opened DockerOutput
  import opened ConfigLoading

  const VsDbgDefaultPath: string := "/vsdbg/vsdbg"
  const NoProcessMessage: string := "Cannot find dotnet process!"

  /** An entry of the PID chooser: a process id, or the "cannot find" message. */
  datatype PidItem = Pid(pid: int) | Message(text: string)

  /** The PID chooser and the attach button: items, selected index and the two enable flags. */
  datatype PidPanel = PidPanel(items: seq<PidItem>, selectedIndex: int, attachEnabled: bool, chooserEnabled: bool)

  /** The values kept in the settings store between sessions; `None` for one never written. */
  datatype Settings = Settings(container: Option<string>, vsDbg: Option<string>, processName: Option<string>)

  /** What the debug adapter launcher is handed. */
  datatype AttachTarget = AttachTarget(container: string, vsDbgPath: string, pid: int)

  /** The outside effects of an attach, in the order they happen. */
  datatype Effect = Persist(settings: Settings) | Launch(target: AttachTarget)

  /** The stored value when the candidates hold it, otherwise the first candidate, or nothing. */
  function InitialSelection(candidates: seq<string>, previous: Option<string>): (r: Option<string>)
    ensures r.Some? ==> r.value in candidates
    ensures r.None? <==> candidates == []
    ensures previous.Some? && previous.value in candidates ==> r == previous
    ensures !(previous.Some? && previous.value in candidates) && candidates != [] ==> r == Some(candidates[0])
  {
    if previous.Some? && previous.value in candidates then previous
    else if candidates == [] then None
    else Some(candidates[0])
  }

  /** The stored debugger path when there is one, even an empty one; the default otherwise. */
  function DebuggerPath(stored: Option<string>): (path: string)
    ensures stored.Some? ==> path == stored.value
    ensures stored.None? ==> path == VsDbgDefaultPath
  {
    match stored
    case Some(p) => p
    case None => VsDbgDefaultPath
  }

  function PidItems(pids: seq<int>): (items: seq<PidItem>)
    ensures |items| == |pids|
    ensures forall k :: 0 <= k < |pids| ==> items[k] == Pid(pids[k])
  {
    if pids == [] then [] else [Pid(pids[0])] + PidItems(pids[1..])
  }

  /** The panel once `pidof` has answered `output`. */
  function Answer(output: string): (r: PidPanel)
    ensures r.selectedIndex == 0 && |r.items| >= 1
    ensures r.attachEnabled <==> ParsePids(output).Some?
    ensures r.chooserEnabled <==> ParsePids(output).Some? && |ParsePids(output).value| > 1
    ensures ParsePids(output).None? ==> r.items == [Message(NoProcessMessage)]
    ensures ParsePids(output).Some? ==>
              |r.items| == |ParsePids(output).value| &&
              forall k :: 0 <= k < |r.items| ==> r.items[k] == Pid(ParsePids(output).value[k])
  {
    match ParsePids(output)
    case None => PidPanel([Message(NoProcessMessage)], 0, false, false)
    case Some(pids) => PidPanel(PidItems(pids), 0, |pids| > 0, |pids| > 1)
  }

  class AttachDialog {
    var status: string
    var containerItems: seq<string>
    var selectedContainer: Option<string>
    var processItems: seq<string>
    var processChooserEnabled: bool
    var selectedProcess: Option<string>
    var vsDbgPath: string
    var pidItems: seq<PidItem>
    var pidIndex: int
    var attachEnabled: bool
    var pidChooserEnabled: bool

    /** Selections come from their lists; attach is only offered on a resolved PID. */
    ghost predicate Valid()
      reads this
    {
      && SelectionsListed()
      && (attachEnabled ==>
            && !SelectionBlank()
            && 0 <= pidIndex < |pidItems|
            && forall k :: 0 <= k < |pidItems| ==> pidItems[k].Pid?)
      && (pidChooserEnabled ==> attachEnabled && |pidItems| > 1)
    }

    /** Each chooser's selection is one of its items. */
    ghost predicate SelectionsListed()
      reads this
    {
      && (selectedContainer.Some? ==> selectedContainer.value in containerItems)
      && (selectedProcess.Some? ==> selectedProcess.value in processItems)
    }

    /** The container or the process selection is missing or white space. */
    predicate SelectionBlank()
      reads this
    {
      IsNullOrWhiteSpace(selectedContainer) || IsNullOrWhiteSpace(selectedProcess)
    }

    function Panel(): PidPanel
      reads this
    {
      PidPanel(pidItems, pidIndex, attachEnabled, pidChooserEnabled)
    }

    /**
     * The panel after a recompute whose `pidof` would answer `output`: both
     * flags off and the list untouched on a blank selection, the answer otherwise.
     */
    ghost predicate Recomputed(output: string, oldItems: seq<PidItem>, oldIndex: int)
      reads this
    {
      if SelectionBlank() then Panel() == PidPanel(oldItems, oldIndex, false, false)
      else Panel() == Answer(output)
    }

    /**
     * The dialog as opened: `loaded` is what `GetConfig` returned and
     * `containerNames` what `GetContainerNames` returned; the stored settings
     * pick the initial selections and the PID panel is recomputed once.
     */
    constructor (loaded: Loaded, containerNames: seq<string>, stored: Settings, output: string)
      ensures Valid()
      ensures status == loaded.status
      ensures containerItems == containerNames
      ensures selectedContainer == InitialSelection(containerItems, stored.container)
      ensures vsDbgPath == DebuggerPath(stored.vsDbg)
      ensures loaded.processNames != [] ==>
                && processChooserEnabled
                && processItems == loaded.processNames
                && selectedProcess == InitialSelection(processItems, stored.processName)
      ensures loaded.processNames == [] ==>
                && !processChooserEnabled
                && processItems == [""]
                && selectedProcess == Some("")
                && !attachEnabled && pidItems == []
      ensures Recomputed(output, [], -1)
    {
      status := loaded.status;
      attachEnabled := false;
      pidChooserEnabled := false;
      pidItems := [];
      pidIndex := -1;
      containerItems := containerNames;
      selectedContainer := InitialSelection(containerNames, stored.container);
      vsDbgPath := DebuggerPath(stored.vsDbg);
      if loaded.processNames != [] {
        processChooserEnabled := true;
        processItems := loaded.processNames;
        selectedProcess := InitialSelection(loaded.processNames, stored.processName);
      } else {
        processChooserEnabled := false;
        processItems := [""];
        selectedProcess := Some("");
      }
      new;
      assert SelectionsListed();
      var _ := Recompute(output);
      if loaded.processNames == [] {
        assert IsNullOrWhiteSpace(selectedProcess);
        assert Panel() == PidPanel([], -1, false, false);
      }
    }

    /**
     * `UpdateDotNetPIDs`: disables attach and the PID chooser, stops on a blank
     * selection, otherwise asks `pidof` (whose answer is `output`) and shows
     * the ids or the "cannot find" message. Returns the docker command issued.
     */
    method Recompute(output: string) returns (command: Option<string>)
      requires SelectionsListed()
      modifies this`attachEnabled, this`pidChooserEnabled, this`pidItems, this`pidIndex
      ensures Valid()
      ensures command == if SelectionBlank() then None
                         else Some(PidofCommand(selectedContainer.value, selectedProcess.value))
      ensures Recomputed(output, old(pidItems), old(pidIndex))
      ensures attachEnabled <==> !SelectionBlank() && ParsePids(output).Some?
    {
      attachEnabled := false;
      pidChooserEnabled := false;

      if IsNullOrWhiteSpace(selectedContainer) {
        return None;
      }
      if IsNullOrWhiteSpace(selectedProcess) {
        return None;
      }

      command := Some(PidofCommand(selectedContainer.value, selectedProcess.value));
      var parsed := ParsePids(output);
      if parsed.None? {
        pidItems := [Message(NoProcessMessage)];
        pidIndex := 0;
      } else {
        var pids := parsed.value;
        pidItems := PidItems(pids);
        pidIndex := 0;
        if |pids| > 1 {
          pidChooserEnabled := true;
        }
        if |pids| > 0 {
          attachEnabled := true;
        }
      }
    }

    /** The user picks container `c`; a change of selection triggers a recompute. */
    method SelectContainer(c: string, output: string) returns (command: Option<string>)
      requires Valid() && c in containerItems
      modifies this`selectedContainer, this`attachEnabled, this`pidChooserEnabled, this`pidItems, this`pidIndex
      ensures Valid() && selectedContainer == Some(c)
      ensures old(selectedContainer) == Some(c) ==> command == None && unchanged(this)
      ensures old(selectedContainer) != Some(c) ==>
                && command == (if SelectionBlank() then None else Some(PidofCommand(c, selectedProcess.value)))
                && Recomputed(output, old(pidItems), old(pidIndex))
    {
      if selectedContainer == Some(c) {
        return None;
      }
      selectedContainer := Some(c);
      command := Recompute(output);
    }

    /** The user picks process name `p`; a change of selection triggers a recompute. */
    method SelectProcess(p: string, output: string) returns (command: Option<string>)
      requires Valid() && processChooserEnabled && p in processItems
      modifies this`selectedProcess, this`attachEnabled, this`pidChooserEnabled, this`pidItems, this`pidIndex
      ensures Valid() && selectedProcess == Some(p)
      ensures old(selectedProcess) == Some(p) ==> command == None && unchanged(this)
      ensures old(selectedProcess) != Some(p) ==>
                && command == (if SelectionBlank() then None else Some(PidofCommand(selectedContainer.value, p)))
                && Recomputed(output, old(pidItems), old(pidIndex))
    {
      if selectedProcess == Some(p) {
        return None;
      }
      selectedProcess := Some(p);
      command := Recompute(output);
    }

    /** The user picks another PID; the chooser is enabled only for several ids. */
    method SelectPid(i: nat)
      requires Valid() && pidChooserEnabled && i < |pidItems|
      modifies this`pidIndex
      ensures Valid() && pidIndex == i
    {
      pidIndex := i;
    }

    /** The user edits the debugger path text box. */
    method EditDebuggerPath(text: string)
      requires Valid()
      modifies this`vsDbgPath
      ensures Valid() && vsDbgPath == text
    {
      vsDbgPath := text;
    }

    /**
     * `AttachButton_Click`: the chooser texts are persisted first, then the
     * launcher is handed the container, the debugger path and the selected PID.
     */
    method Attach() returns (effects: seq<Effect>)
      requires Valid() && attachEnabled
      ensures selectedContainer.Some? && selectedProcess.Some? && pidItems[pidIndex].Pid?
      ensures effects == [
                Persist(Settings(selectedContainer, Some(vsDbgPath), selectedProcess)),
                Launch(AttachTarget(selectedContainer.value, vsDbgPath, pidItems[pidIndex].pid))]
    {
      var containerName := selectedContainer.value;
      var processName := selectedProcess.value;
      var pid := pidItems[pidIndex].pid;
      effects := [Persist(Settings(Some(containerName), Some(vsDbgPath), Some(processName)))];
      effects := effects + [Launch(AttachTarget(containerName, vsDbgPath, pid))];
    }
  }

  /**
   * An attach followed by a new dialog over the same containers and the same
   * configuration: the new dialog starts on the container, process and
   * debugger path that were just used.
   */
  method AttachThenReopen(d: AttachDialog, src: ConfigSource, listing: string, output: string)
    returns (effects: seq<Effect>, container: Option<string>, process: Option<string>, path: string)
    requires d.Valid() && d.attachEnabled
    requires ContainerNames(listing) == d.containerItems
    requires GetConfig(src).processNames == d.processItems
    ensures |effects| == 2 && effects[0].Persist?
    ensures container == d.selectedContainer && process == d.selectedProcess && path == d.vsDbgPath
  {
    effects := d.Attach();
    var reopened := new AttachDialog(GetConfig(src), ContainerNames(listing), effects[0].settings, output);
    container, process, path := reopened.selectedContainer, reopened.selectedProcess, reopened.vsDbgPath;
  }
}
