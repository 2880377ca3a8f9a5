/** The sync reconciler: a textual plan from database records and host states, executed by re-reading it. */
module ContainerSync {
  import opened Wrappers
  import opened Text

  datatype Record = Record(name: string, image: string, version: string, username: string)

  /** Container name to docker state, as `docker ps -a` reports it. */
  type States = map<string, string>

  datatype Decision =
    | Create(record: Record)
    | Restart(name: string)
    | Keep(name: string)
    | Delete(name: string)
    | Warn(name: string)

  /** What executing a step line does to the host. */
  datatype Action = RunContainer(name: string) | Start(name: string) | Remove(name: string) | NoAction

  function CreateTail(r: Record): string {
    " image=dguailab/" + r.image + ":" + r.version + " user=" + r.username
  }

  function StepText(d: Decision): string {
    match d
    case Create(r) => "CREATE " + r.name + CreateTail(r)
    case Restart(name) => "RESTART " + name
    case Keep(name) => "OK " + name
    case Delete(name) => "DELETE " + name + " not in DB"
    case Warn(name) => "WARN " + name + " exists on server but not DB"
  }

  /** How execute reads a step line back. */
  function ReadStep(step: string, autoDelete: bool): Action {
    if "DELETE " <= step && autoDelete then Remove(SecondWord(step))
    else if "CREATE " <= step then RunContainer(SecondWord(step))
    else if "RESTART " <= step then Start(SecondWord(step))
    else NoAction
  }

  function ActionOf(d: Decision): Action {
    match d
    case Create(r) => RunContainer(r.name)
    case Restart(name) => Start(name)
    case Delete(name) => Remove(name)
    case _ => NoAction
  }

  predicate DockerName(name: string) {
    name != [] && SpaceFree(name)
  }

  function NameOf(d: Decision): string {
    if d.Create? then d.record.name else d.name
  }

  lemma CreateReadsBack(d: Decision, autoDelete: bool)
    requires d.Create? && DockerName(d.record.name)
    ensures ReadStep(StepText(d), autoDelete) == RunContainer(d.record.name)
  {
    hide SecondWord;
    var r, step := d.record, StepText(d);
    var tail := CreateTail(r);
    assert tail[0] == ' ';
    SecondWordOf("CREATE", r.name, tail);
    assert step == "CREATE" + " " + r.name + tail;
    assert step[0] == 'C' && step[..7] == "CREATE ";
  }

  /** The textual steps parse back to exactly the decisions that produced them. */
  lemma StepsReadBack(d: Decision, autoDelete: bool)
    requires DockerName(NameOf(d)) && (d.Delete? ==> autoDelete)
    ensures ReadStep(StepText(d), autoDelete) == ActionOf(d)
  {
    var step := StepText(d);
    match d
    case Create(r) =>
      CreateReadsBack(d, autoDelete);
    case Restart(name) =>
      SecondWordOf("RESTART", name, "");
      assert step == "RESTART" + " " + name + "";
      assert step[0] == 'R' && step[..8] == "RESTART ";
    case Delete(name) =>
      SecondWordOf("DELETE", name, " not in DB");
      assert step == "DELETE" + " " + name + " not in DB";
      assert step[..7] == "DELETE ";
    case Keep(name) =>
      assert step[0] == 'O';
    case Warn(name) =>
      assert step[0] == 'W';
  }

  /** A record the way docker and the schema spell it: no spaces, and no colon in the image. */
  predicate DockerRecord(r: Record) {
    DockerName(r.name) && Free(r.image, ':') && SpaceFree(r.version) && SpaceFree(r.username)
  }

  lemma FirstSeparator(a: string, b: string, x: string, y: string, c: char)
    requires Free(a, c) && Free(b, c) && a + [c] + x == b + [c] + y
    ensures a == b && x == y
  {
    SplitOnceAppend(a, c, x);
    SplitOnceAppend(b, c, y);
  }

  lemma SpaceFreeIsFree(s: string)
    requires SpaceFree(s)
    ensures Free(s, ' ')
  {
  }

  /** The part of a CREATE line after the name. */
  function ImagePart(r: Record): string {
    r.image + [':'] + (r.version + [' '] + ("user=" + r.username))
  }

  lemma ImagePartTells(a: Record, b: Record)
    requires DockerRecord(a) && DockerRecord(b) && ImagePart(a) == ImagePart(b)
    ensures a.image == b.image && a.version == b.version && a.username == b.username
  {
    hide SpaceFree;
    var x, y := "user=" + a.username, "user=" + b.username;
    FirstSeparator(a.image, b.image, a.version + [' '] + x, b.version + [' '] + y, ':');
    SpaceFreeIsFree(a.version);
    SpaceFreeIsFree(b.version);
    FirstSeparator(a.version, b.version, x, y, ' ');
    SameTail("user=", a.username, b.username);
  }

  lemma CreateTextIs(r: Record)
    ensures StepText(Create(r)) == "CREATE " + (r.name + [' '] + ("image=dguailab/" + ImagePart(r)))
  {
    assert StepText(Create(r)) == "CREATE " + r.name + CreateTail(r);
    assert CreateTail(r) == [' '] + ("image=dguailab/" + ImagePart(r));
  }

  lemma CreateTextTells(a: Record, b: Record)
    requires DockerRecord(a) && DockerRecord(b) && StepText(Create(a)) == StepText(Create(b))
    ensures a == b
  {
    hide StepText, ImagePart, SpaceFree;
    CreateTextIs(a);
    CreateTextIs(b);
    var key := "image=dguailab/";
    SameTail("CREATE ", a.name + [' '] + (key + ImagePart(a)), b.name + [' '] + (key + ImagePart(b)));
    SpaceFreeIsFree(a.name);
    SpaceFreeIsFree(b.name);
    FirstSeparator(a.name, b.name, key + ImagePart(a), key + ImagePart(b), ' ');
    SameTail(key, ImagePart(a), ImagePart(b));
    ImagePartTells(a, b);
  }

  lemma SameTail(front: string, x: string, y: string)
    requires front + x == front + y
    ensures x == y
  {
    assert (front + x)[|front|..] == x && (front + y)[|front|..] == y;
  }

  /** No two decisions print the same line: a plan tells a reader the names, images, versions and users. */
  lemma StepTextTells(d: Decision, e: Decision)
    requires DockerName(NameOf(d)) && (d.Create? ==> DockerRecord(d.record))
    requires DockerName(NameOf(e)) && (e.Create? ==> DockerRecord(e.record))
    requires StepText(d) == StepText(e)
    ensures d == e
  {
    assert StepText(d)[0] == StepText(e)[0];
    match d
    case Create(r) => CreateTextTells(r, e.record);
    case Restart(name) => SameTail("RESTART ", name, e.name);
    case Keep(name) => SameTail("OK ", name, e.name);
    case Delete(name) => OneWordTells("DELETE ", name, e.name, " not in DB");
    case Warn(name) => OneWordTells("WARN ", name, e.name, " exists on server but not DB");
  }

  lemma OneWordTells(verb: string, a: string, b: string, rest: string)
    requires DockerName(a) && DockerName(b) && rest != [] && rest[0] == ' ' && verb + a + rest == verb + b + rest
    ensures a == b
  {
    var tail := rest[1..];
    assert verb + a + rest == verb + (a + [' '] + tail) && verb + b + rest == verb + (b + [' '] + tail);
    SameTail(verb, a + [' '] + tail, b + [' '] + tail);
    SpaceFreeIsFree(a);
    SpaceFreeIsFree(b);
    FirstSeparator(a, b, tail, tail, ' ');
  }

  // ---------- Planning ----------

  function Names(records: seq<Record>): set<string> {
    set i | 0 <= i < |records| :: records[i].name
  }

  function DecisionFor(r: Record, states: States): Decision {
    if r.name !in states then Create(r)
    else if states[r.name] == "exited" then Restart(r.name)
    else Keep(r.name)
  }

  function ExtraDecision(name: string, autoDelete: bool): Decision {
    if autoDelete then Delete(name) else Warn(name)
  }

  function Decisions(records: seq<Record>, extras: seq<string>, states: States, autoDelete: bool): (ds: seq<Decision>)
    ensures |ds| == |records| + |extras|
    ensures forall i :: 0 <= i < |records| ==> ds[i] == DecisionFor(records[i], states)
    ensures forall i :: 0 <= i < |extras| ==> ds[|records| + i] == ExtraDecision(extras[i], autoDelete)
  {
    seq(|records|, i requires 0 <= i < |records| => DecisionFor(records[i], states))
    + seq(|extras|, i requires 0 <= i < |extras| => ExtraDecision(extras[i], autoDelete))
  }

  function Texts(ds: seq<Decision>): (steps: seq<string>)
    ensures |steps| == |ds| && forall i :: 0 <= i < |ds| ==> steps[i] == StepText(ds[i])
  {
    seq(|ds|, i requires 0 <= i < |ds| => StepText(ds[i]))
  }

  /** `extras` lists once each the host's names that no record has. */
  ghost predicate ListsExtras(extras: seq<string>, records: seq<Record>, states: States) {
    && (forall i, j :: 0 <= i < j < |extras| ==> extras[i] != extras[j])
    && (forall n :: n in extras <==> n in states && n !in Names(records))
  }

  method PlanFromRecords(records: seq<Record>, states: States, autoDelete: bool)
    returns (steps: seq<string>, extras: seq<string>)
    ensures ListsExtras(extras, records, states)
    ensures steps == Texts(Decisions(records, extras, states, autoDelete))
  {
    hide StepText, DecisionFor, ExtraDecision;
    var recordSteps := [];
    for k := 0 to |records|
      invariant |recordSteps| == k && forall i :: 0 <= i < k ==> recordSteps[i] == StepText(DecisionFor(records[i], states))
    {
      recordSteps := recordSteps + [StepText(DecisionFor(records[k], states))];
    }
    var extraSteps;
    extraSteps, extras := PlanExtras(states.Keys - Names(records), autoDelete);
    steps := recordSteps + extraSteps;
  }

  /** The host names no record has, in some order. */
  method PlanExtras(names: set<string>, autoDelete: bool) returns (steps: seq<string>, extras: seq<string>)
    ensures forall i, j :: 0 <= i < j < |extras| ==> extras[i] != extras[j]
    ensures forall n :: n in extras <==> n in names
    ensures |steps| == |extras| && forall i :: 0 <= i < |extras| ==> steps[i] == StepText(ExtraDecision(extras[i], autoDelete))
  {
    hide StepText, ExtraDecision;
    steps, extras := [], [];
    var remaining := names;
    while remaining != {}
      invariant remaining <= names && forall n :: n in extras <==> n in names - remaining
      invariant forall i :: 0 <= i < |extras| ==> extras[i] !in remaining
      invariant forall i, j :: 0 <= i < j < |extras| ==> extras[i] != extras[j]
      invariant |steps| == |extras| && forall i :: 0 <= i < |extras| ==> steps[i] == StepText(ExtraDecision(extras[i], autoDelete))
      decreases remaining
    {
      var name :| name in remaining;
      remaining := remaining - {name};
      extras := extras + [name];
      steps := steps + [StepText(ExtraDecision(name, autoDelete))];
    }
  }

  // ---------- Execution ----------

  function Effect(states: States, a: Action): States {
    match a
    case RunContainer(name) => states[name := "running"]
    case Start(name) => states[name := "running"]
    case Remove(name) => states - {name}
    case NoAction => states
  }

  function Effects(states: States, actions: seq<Action>): States {
    if actions == [] then states
    else
      var n := |actions| - 1;
      Effect(Effects(states, actions[..n]), actions[n])
  }

  function ReadSteps(steps: seq<string>, autoDelete: bool): (actions: seq<Action>)
    ensures |actions| == |steps| && forall i :: 0 <= i < |steps| ==> actions[i] == ReadStep(steps[i], autoDelete)
  {
    seq(|steps|, i requires 0 <= i < |steps| => ReadStep(steps[i], autoDelete))
  }

  /** Every line that would run a container names one of these. */
  ghost predicate Runnable(steps: seq<string>, names: set<string>, autoDelete: bool) {
    forall i :: 0 <= i < |steps| && ReadStep(steps[i], autoDelete).RunContainer? ==> ReadStep(steps[i], autoDelete).name in names
  }

  class LocalDocker {
    const faultless: bool
    var states: States

    /** `docker rm -f`, run without check; it may silently fail. */
    method RemoveForced(name: string) returns (removed: bool)
      modifies this
      ensures states == if removed then old(states) - {name} else old(states)
      ensures faultless ==> removed
    {
      removed := *;
      removed := removed || faultless;
      if removed {
        states := states - {name};
      }
    }

    /** `docker run` or `docker start`: on success the container is running, on failure it may have been created. */
    method BringUp(name: string) returns (outcome: Outcome)
      modifies this
      ensures outcome.Done? ==> states == old(states)[name := "running"]
      ensures outcome.Raised? ==> states == old(states) || (name !in old(states) && states == old(states)[name := "created"])
      ensures faultless ==> outcome.Done?
    {
      var works: bool, leaves: bool := *, *;
      if !works && !faultless {
        if leaves && name !in states {
          states := states[name := "created"];
        }
        return Raised;
      }
      states := states[name := "running"];
      return Done;
    }

    /** One step line; `by_name` lookup of an unknown name raises. */
    method Perform(action: Action, names: set<string>) returns (outcome: Outcome, removed: bool)
      modifies this
      ensures outcome.Done? && removed ==> states == Effect(old(states), action)
      ensures !action.Remove? ==> old(states).Keys <= states.Keys
      ensures action.RunContainer? && action.name !in names ==> outcome.Raised? && states == old(states)
      ensures faultless ==> removed && (outcome.Done? <==> (action.RunContainer? ==> action.name in names))
    {
      outcome, removed := Done, true;
      match action {
        case Remove(name) =>
          removed := RemoveForced(name);
        case RunContainer(name) =>
          if name !in names {
            return Raised, true;
          }
          outcome := BringUp(name);
        case Start(name) =>
          outcome := BringUp(name);
        case NoAction =>
      }
    }

    /** Performs the step lines in order; `quiet` reports that no unchecked removal failed silently. */
    method ApplySteps(steps: seq<string>, names: set<string>, autoDelete: bool) returns (outcome: Outcome, quiet: bool)
      modifies this
      ensures outcome.Done? && quiet ==> states == Effects(old(states), ReadSteps(steps, autoDelete))
      ensures !autoDelete ==> old(states).Keys <= states.Keys
      ensures outcome.Done? ==> Runnable(steps, names, autoDelete)
      ensures faultless ==> quiet && (outcome.Done? <==> Runnable(steps, names, autoDelete))
    {
      hide ReadStep, Effect, Effects;
      quiet := true;
      ghost var start, actions := states, ReadSteps(steps, autoDelete);
      NoEffects(start, actions);
      for k := 0 to |steps|
        invariant quiet ==> states == Effects(start, actions[..k])
        invariant !autoDelete ==> start.Keys <= states.Keys
        invariant forall i :: 0 <= i < k && ReadStep(steps[i], autoDelete).RunContainer? ==>
          ReadStep(steps[i], autoDelete).name in names
        invariant faultless ==> quiet
      {
        EffectsSnoc(start, actions, k);
        var action := ReadStep(steps[k], autoDelete);
        OnlyAutoDeleteRemoves(steps[k], autoDelete);
        var removed;
        outcome, removed := Perform(action, names);
        quiet := quiet && removed;
        if outcome.Raised? {
          return;
        }
      }
      assert actions[..|steps|] == actions;
      outcome := Done;
    }

    method Execute(records: seq<Record>, dryRun: bool, autoDelete: bool)
      returns (outcome: Outcome, steps: seq<string>, extras: seq<string>, quiet: bool)
      modifies this
      ensures ListsExtras(extras, records, old(states))
      ensures steps == Texts(Decisions(records, extras, old(states), autoDelete))
      ensures dryRun ==> outcome.Done? && states == old(states)
      ensures !dryRun && outcome.Done? && quiet ==> states == Effects(old(states), ReadSteps(steps, autoDelete))
      ensures !autoDelete ==> old(states).Keys <= states.Keys
      ensures faultless && DistinctNames(records) && (forall n :: n in old(states) ==> DockerName(n)) ==> outcome.Done? && quiet
    {
      hide Effects, Decisions;
      steps, extras := PlanFromRecords(records, states, autoDelete);
      outcome, quiet := Done, true;
      if DistinctNames(records) && forall n :: n in states ==> DockerName(n) {
        PlanIsRunnable(records, extras, states, autoDelete);
      }
      if !dryRun {
        outcome, quiet := ApplySteps(steps, Names(records), autoDelete);
      }
    }
  }

  lemma OnlyAutoDeleteRemoves(step: string, autoDelete: bool)
    ensures ReadStep(step, autoDelete).Remove? ==> autoDelete
  {
  }

  lemma NoEffects(states: States, actions: seq<Action>)
    ensures Effects(states, actions[..0]) == states
  {
  }

  lemma EffectsSnoc(states: States, actions: seq<Action>, k: nat)
    requires k < |actions|
    ensures Effects(states, actions[..k + 1]) == Effect(Effects(states, actions[..k]), actions[k])
  {
    assert actions[..k + 1][..k] == actions[..k];
  }

  // ---------- Convergence ----------

  ghost predicate DistinctNames(records: seq<Record>) {
    && (forall i, j :: 0 <= i < j < |records| ==> records[i].name != records[j].name)
    && (forall i :: 0 <= i < |records| ==> DockerName(records[i].name))
  }

  function StateAfter(name: string, states: States): string {
    if name !in states || states[name] == "exited" then "running" else states[name]
  }

  /** The host a successful apply leaves behind. */
  function Synced(records: seq<Record>, states: States, autoDelete: bool): States {
    map n | n in Names(records) + (if autoDelete then {} else states.Keys) ::
      if n in Names(records) then StateAfter(n, states) else states[n]
  }

  /** The host once the records named in `done` have been handled. */
  function Partial(done: set<string>, states: States): States {
    map n | n in done + states.Keys :: if n in done then StateAfter(n, states) else states[n]
  }

  lemma PartialStep(done: set<string>, r: Record, states: States)
    requires r.name !in done
    ensures Effect(Partial(done, states), ActionOf(DecisionFor(r, states))) == Partial(done + {r.name}, states)
  {
  }

  function Actions(ds: seq<Decision>): (actions: seq<Action>)
    ensures |actions| == |ds| && forall i :: 0 <= i < |ds| ==> actions[i] == ActionOf(ds[i])
  {
    seq(|ds|, i requires 0 <= i < |ds| => ActionOf(ds[i]))
  }

  lemma NamesSnoc(records: seq<Record>, k: nat)
    requires k < |records|
    ensures Names(records[..k + 1]) == Names(records[..k]) + {records[k].name}
  {
    assert records[..k + 1][k] == records[k];
    forall n | n in Names(records[..k]) ensures n in Names(records[..k + 1]) {
      var i :| 0 <= i < k && records[..k][i].name == n;
      assert records[..k + 1][i].name == n;
    }
  }

  lemma {:induction false} RecordsApplied(records: seq<Record>, actions: seq<Action>, k: nat, states: States)
    requires k <= |records| <= |actions| && DistinctNames(records)
    requires forall i :: 0 <= i < |records| ==> actions[i] == ActionOf(DecisionFor(records[i], states))
    ensures Effects(states, actions[..k]) == Partial(Names(records[..k]), states)
  {
    if k > 0 {
      RecordsApplied(records, actions, k - 1, states);
      assert actions[..k][..k - 1] == actions[..k - 1];
      NamesSnoc(records, k - 1);
      assert records[k - 1].name !in Names(records[..k - 1]);
      PartialStep(Names(records[..k - 1]), records[k - 1], states);
    }
  }

  lemma {:induction false} ExtrasApplied(actions: seq<Action>, m: nat, extras: seq<string>, k: nat,
      states: States, autoDelete: bool)
    requires k <= |extras| && |actions| == m + |extras|
    requires forall i :: 0 <= i < |extras| ==> actions[m + i] == ActionOf(ExtraDecision(extras[i], autoDelete))
    ensures Effects(states, actions[..m + k])
         == Effects(states, actions[..m]) - (if autoDelete then Elements(extras[..k]) else {})
  {
    if k > 0 {
      var n := m + k;
      ExtrasApplied(actions, m, extras, k - 1, states, autoDelete);
      assert actions[..n][..n - 1] == actions[..n - 1];
      assert extras[..k] == extras[..k - 1] + [extras[k - 1]];
      assert Elements(extras[..k]) == Elements(extras[..k - 1]) + {extras[k - 1]};
    }
  }

  lemma TextsReadBack(records: seq<Record>, extras: seq<string>, states: States, autoDelete: bool)
    requires DistinctNames(records) && ListsExtras(extras, records, states)
    requires forall n :: n in states ==> DockerName(n)
    ensures var ds := Decisions(records, extras, states, autoDelete);
            ReadSteps(Texts(ds), autoDelete) == Actions(ds)
  {
    var ds := Decisions(records, extras, states, autoDelete);
    forall i | 0 <= i < |ds| ensures ReadStep(Texts(ds)[i], autoDelete) == ActionOf(ds[i]) {
      if i >= |records| {
        assert extras[i - |records|] in extras;
      }
      StepsReadBack(ds[i], autoDelete);
    }
  }

  /** Every CREATE line of a plan names a record. */
  lemma PlanIsRunnable(records: seq<Record>, extras: seq<string>, states: States, autoDelete: bool)
    requires DistinctNames(records) && ListsExtras(extras, records, states)
    requires forall n :: n in states ==> DockerName(n)
    ensures Runnable(Texts(Decisions(records, extras, states, autoDelete)), Names(records), autoDelete)
  {
    hide ReadStep, StepText;
    var ds := Decisions(records, extras, states, autoDelete);
    TextsReadBack(records, extras, states, autoDelete);
    forall i | 0 <= i < |ds| && ReadStep(Texts(ds)[i], autoDelete).RunContainer?
      ensures ReadStep(Texts(ds)[i], autoDelete).name in Names(records)
    {
      assert ReadSteps(Texts(ds), autoDelete)[i] == ActionOf(ds[i]);
    }
  }

  /**
   A successful apply makes the host what the database says: with auto-delete exactly the recorded
   names, otherwise those plus every name that was already there.
   */
  lemma Converges(records: seq<Record>, extras: seq<string>, states: States, autoDelete: bool)
    requires DistinctNames(records) && ListsExtras(extras, records, states)
    requires forall n :: n in states ==> DockerName(n)
    ensures Effects(states, ReadSteps(Texts(Decisions(records, extras, states, autoDelete)), autoDelete))
         == Synced(records, states, autoDelete)
  {
    TextsReadBack(records, extras, states, autoDelete);
    ActionsConverge(records, extras, states, autoDelete);
  }

  lemma ExtrasPart(actions: seq<Action>, m: nat, extras: seq<string>, states: States, autoDelete: bool)
    requires |actions| == m + |extras|
    requires forall i :: 0 <= i < |extras| ==> actions[m + i] == ActionOf(ExtraDecision(extras[i], autoDelete))
    ensures Effects(states, actions) == Effects(states, actions[..m]) - (if autoDelete then Elements(extras) else {})
  {
    ExtrasApplied(actions, m, extras, |extras|, states, autoDelete);
    assert actions[..m + |extras|] == actions && extras[..|extras|] == extras;
  }

  lemma ActionsConverge(records: seq<Record>, extras: seq<string>, states: States, autoDelete: bool)
    requires DistinctNames(records) && ListsExtras(extras, records, states)
    ensures Effects(states, Actions(Decisions(records, extras, states, autoDelete))) == Synced(records, states, autoDelete)
  {
    var ds := Decisions(records, extras, states, autoDelete);
    var actions, m := Actions(ds), |records|;
    RecordsApplied(records, actions, m, states);
    assert records[..m] == records;
    ExtrasPart(actions, m, extras, states, autoDelete);
    SyncedIsPartial(records, extras, states, autoDelete);
  }

  lemma SyncedIsPartial(records: seq<Record>, extras: seq<string>, states: States, autoDelete: bool)
    requires ListsExtras(extras, records, states)
    ensures Partial(Names(records), states) - (if autoDelete then Elements(extras) else {}) == Synced(records, states, autoDelete)
  {
  }

  /** After an apply a recorded container runs exactly when it was absent, exited or running before. */
  lemma RunningExactly(records: seq<Record>, states: States, autoDelete: bool, name: string)
    requires name in Names(records)
    ensures var s := Synced(records, states, autoDelete);
            name in s && (s[name] == "running" <==> name !in states || states[name] in {"running", "exited"})
  {
  }

  lemma HeadIsElement(names: seq<string>)
    requires |names| > 0
    ensures names[0] in names
  {
  }

  /** A second plan keeps every record and, after auto-delete, proposes nothing else. */
  lemma SecondPlanIsOk(records: seq<Record>, states: States, extras: seq<string>, autoDelete: bool)
    requires ListsExtras(extras, records, Synced(records, states, autoDelete))
    ensures var s := Synced(records, states, autoDelete);
            && (forall i :: 0 <= i < |records| ==> DecisionFor(records[i], s) == Keep(records[i].name))
            && (autoDelete ==> extras == [])
            && Synced(records, s, autoDelete) == s
  {
    var s := Synced(records, states, autoDelete);
    if autoDelete && |extras| > 0 {
      HeadIsElement(extras);
      assert false;
    }
    forall i | 0 <= i < |records| ensures DecisionFor(records[i], s) == Keep(records[i].name) {
      assert records[i].name in Names(records);
    }
  }
}
