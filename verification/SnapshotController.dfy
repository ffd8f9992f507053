/** Muting and waking the camera application: every change of the records sends a command, and a worker
    merges the commands it finds into at most one notification. */
module SnapshotController {
  import opened Collections

  datatype Command = Mute | Continue

  datatype Status = Muted | Activated

  /** `commands` wait, `taken` are in the worker's hands; `told` are the notifications, in order. */
  datatype Controller = Controller(
    records: map<int, bool>, commands: seq<Command>, taken: seq<Command>, status: Status, told: seq<Status>)

  datatype Step = Update(client: int, canDoNext: bool) | Delete(client: int) | Grab | Process

  predicate Enabled(s: Controller, a: Step) {
    match a
    case Grab => s.commands != [] && s.taken == []
    case Process => s.taken != []
    case _ => true
  }

  ghost predicate AllCan(records: map<int, bool>) {
    forall o :: o in records ==> records[o]
  }

  ghost function Wanted(records: map<int, bool>): Status {
    if AllCan(records) then Activated else Muted
  }

  ghost function CommandFor(records: map<int, bool>): Command {
    if AllCan(records) then Continue else Mute
  }

  /** The merge: only a command that differs from the status so far changes it. */
  function Merged(status: Status, commands: seq<Command>): Status
    decreases |commands|
  {
    if commands == [] then status
    else
      var next := if status.Muted? && commands[0].Continue? then Activated
                  else if status.Activated? && commands[0].Mute? then Muted
                  else status;
      Merged(next, commands[1..])
  }

  ghost function Apply(s: Controller, a: Step): Controller
    requires Enabled(s, a)
  {
    match a
    case Update(o, b) =>
      var records := s.records[o := b];
      s.(records := records, commands := s.commands + [CommandFor(records)])
    case Delete(o) =>
      if o !in s.records then s
      else var records := s.records - {o};
           s.(records := records, commands := s.commands + [CommandFor(records)])
    case Grab => s.(taken := s.commands, commands := [])
    case Process =>
      var status := Merged(s.status, s.taken);
      s.(taken := [], status := status, told := if status != s.status then s.told + [status] else s.told)
  }

  /** Merging comes down to the last command. */
  lemma {:induction false} MergedIsLast(status: Status, commands: seq<Command>)
    requires commands != []
    ensures Merged(status, commands) == if commands[|commands| - 1].Mute? then Muted else Activated
    decreases |commands|
  {
    if |commands| > 1 {
      var next := if status.Muted? && commands[0].Continue? then Activated
                  else if status.Activated? && commands[0].Mute? then Muted
                  else status;
      MergedIsLast(next, commands[1..]);
    }
  }

  /** Merging in two batches is merging in one. */
  lemma {:induction false} MergedInParts(status: Status, a: seq<Command>, b: seq<Command>)
    ensures Merged(Merged(status, a), b) == Merged(status, a + b)
    decreases |a|
  {
    if a == [] {
      assert a + b == b;
    } else {
      assert (a + b)[1..] == a[1..] + b;
      var next := if status.Muted? && a[0].Continue? then Activated
                  else if status.Activated? && a[0].Mute? then Muted
                  else status;
      MergedInParts(next, a[1..], b);
    }
  }

  predicate Alternating(told: seq<Status>) {
    && (told != [] ==> told[0].Muted?)
    && forall i :: 0 <= i < |told| - 1 ==> told[i] != told[i + 1]
  }

  /** Once everything sent has been merged in, the status is the wanted one; the application has been told
      every change of the status, and nothing twice. */
  ghost predicate Inv(s: Controller) {
    && Merged(s.status, s.taken + s.commands) == Wanted(s.records)
    && Alternating(s.told)
    && s.status == if s.told == [] then Activated else s.told[|s.told| - 1]
  }

  lemma StepInv(s: Controller, a: Step)
    requires Inv(s) && Enabled(s, a)
    ensures Inv(Apply(s, a))
  {
    var s' := Apply(s, a);
    if s'.records != s.records || a.Update? {
      var all := s'.taken + s'.commands;
      assert all[|all| - 1] == CommandFor(s'.records);
      MergedIsLast(s.status, all);
    } else if a.Grab? {
      assert s'.taken + s'.commands == s.taken + s.commands;
    } else if a.Process? {
      MergedInParts(s.status, s.taken, s.commands);
      assert s'.taken + s'.commands == s.commands;
    }
  }

  ghost predicate Stepped(s: Controller, a: Step, s': Controller) {
    Enabled(s, a) && s' == Apply(s, a)
  }

  ghost predicate Run(states: seq<Controller>, steps: seq<Step>) {
    && |states| == |steps| + 1 && states[0] == Controller(map[], [], [], Activated, [])
    && forall k :: 0 <= k < |steps| ==> Stepped(states[k], steps[k], states[k + 1])
  }

  lemma {:induction false} RunInv(states: seq<Controller>, steps: seq<Step>, k: nat)
    requires Run(states, steps) && k < |states|
    ensures Inv(states[k])
  {
    if k > 0 {
      RunInv(states, steps, k - 1);
      assert Stepped(states[k - 1], steps[k - 1], states[k]);
      StepInv(states[k - 1], steps[k - 1]);
    }
  }

  /** However the worker happens to batch the commands: whenever it has caught up, the application is muted
      exactly if some record forbids the next snapshot, and what it was last told says so. */
  lemma CaughtUp(states: seq<Controller>, steps: seq<Step>, k: nat)
    requires Run(states, steps) && k < |states|
    ensures var s := states[k];
            && Alternating(s.told)
            && (s.commands == [] && s.taken == [] ==>
                  (s.status.Muted? <==> exists o :: o in s.records && !s.records[o])
                  && s.status == if s.told == [] then Activated else s.told[|s.told| - 1])
  {
    RunInv(states, steps, k);
    var s := states[k];
    if s.commands == [] && s.taken == [] {
      assert s.taken + s.commands == [];
    }
  }

  class AppSnapshotController {
    var mRecord: map<int, bool>
    var mCommands: seq<Command>
    var mAppStatus: Status
    ghost var taken: seq<Command>
    ghost var told: seq<Status>

    ghost function View(): Controller
      reads this
    {
      Controller(mRecord, mCommands, taken, mAppStatus, told)
    }

    constructor ()
      ensures View() == Controller(map[], [], [], Activated, [])
    {
      mRecord, mCommands, mAppStatus, taken, told := map[], [], Activated, [], [];
    }

    method OnRecordUpdate(canDoNextSnapshot: bool, client: int)
      modifies this`mRecord, this`mCommands
      ensures View() == Apply(old(View()), Update(client, canDoNextSnapshot))
    {
      mRecord := mRecord[client := canDoNextSnapshot];
      OnRecordChanged();
    }

    method OnRecordDelete(client: int)
      modifies this`mRecord, this`mCommands
      ensures View() == Apply(old(View()), Delete(client))
    {
      if client in mRecord {
        mRecord := mRecord - {client};
        OnRecordChanged();
      }
    }

    /** Looks for a record that is false. */
    method OnRecordChanged()
      modifies this`mCommands
      ensures mCommands == old(mCommands) + [CommandFor(mRecord)]
    {
      var canAll := true;
      var rest := mRecord.Keys;
      while rest != {} && canAll
        invariant rest <= mRecord.Keys && mCommands == old(mCommands)
        invariant canAll ==> forall o :: o in mRecord && o !in rest ==> mRecord[o]
        invariant !canAll ==> exists o :: o in mRecord && !mRecord[o]
        decreases |rest|
      {
        Inhabited(rest);
        var o :| o in rest;
        canAll := mRecord[o];
        rest := rest - {o};
      }
      assert canAll <==> AllCan(mRecord);
      mCommands := mCommands + [if canAll then Continue else Mute];
    }

    /** The worker takes all waiting commands at once. */
    method GrabCommands() returns (tempCommands: seq<Command>)
      requires mCommands != [] && taken == []
      modifies this`mCommands, this`taken
      ensures View() == Apply(old(View()), Grab) && tempCommands == taken
    {
      tempCommands := mCommands;
      mCommands := [];
      taken := tempCommands;
    }

    /** Merges them, and notifies the application if the status has changed. */
    method ProcessCommands(tempCommands: seq<Command>) returns (notified: bool)
      requires tempCommands == taken != []
      modifies this`mAppStatus, this`taken, this`told
      ensures View() == Apply(old(View()), Process) && (notified <==> mAppStatus != old(mAppStatus))
    {
      var updated := mAppStatus;
      var i := 0;
      while i < |tempCommands|
        invariant 0 <= i <= |tempCommands|
        invariant Merged(updated, tempCommands[i..]) == Merged(mAppStatus, tempCommands)
      {
        assert tempCommands[i..][1..] == tempCommands[i + 1..];
        if updated.Muted? && tempCommands[i].Continue? {
          updated := Activated;
        } else if updated.Activated? && tempCommands[i].Mute? {
          updated := Muted;
        }
        i := i + 1;
      }
      notified := updated != mAppStatus;
      if notified {
        mAppStatus := updated;
        told := told + [updated];
      }
      taken := [];
    }
  }
}
