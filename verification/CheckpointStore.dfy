/**
 The checkpoint store of one model: FileStorage in loudml/filestorage.py.

 The model's directory is a value, every file-system call a step on it. An operation is the list
 of steps it makes, so a crash is a prefix of that list. The methods of class FileStorage are
 proved to make exactly those steps.
 */
module CheckpointStore {
  import opened Prelude

  // ---------------------------------------------------------------- the directory

  /** What a JSON file holds: a complete document, or not one. */
  datatype Content = Torn | Json(doc: string)

  datatype File = File(content: Content, mtime: nat)

  /** `ckpts` are the NN.ckpt files, `current` the target of the state.json link, `temp` the
      temporary file being written. */
  datatype Dir = Dir(
    present: bool,
    settings: Option<File>,
    ckpts: map<nat, File>,
    current: Option<nat>,
    temp: Option<File>,
    clock: nat
  )

  const NO_DIR := Dir(false, None, map[], None, None, 0)

  datatype Name = Settings | Ckpt(n: nat)

  datatype Step =
    | MakeDir
    | OpenTemp
    | WriteTemp(doc: string)
    | RenameTemp(to: Name)
    | Unlink
    | Link(n: nat)
    | Touch(n: nat)

  /** One file-system call; the clock ticks with each. */
  function Apply(d: Dir, s: Step): Dir {
    var d' := d.(clock := d.clock + 1);
    match s
    case MakeDir => d'.(present := true)
    case OpenTemp => d'.(temp := Some(File(Torn, d.clock)))
    case WriteTemp(doc) => d'.(temp := Some(File(Json(doc), d.clock)))
    case RenameTemp(to) =>
      if d.temp.None? then d'
      else if to.Settings? then d'.(settings := d.temp, temp := None)
      else d'.(ckpts := d.ckpts[to.n := d.temp.value], temp := None)
    case Unlink => d'.(current := None)
    case Link(n) => d'.(current := Some(n))
    case Touch(n) =>
      d'.(ckpts := d.ckpts[n := File(if n in d.ckpts then d.ckpts[n].content else Torn, d.clock)])
  }

  function ApplyAll(d: Dir, steps: seq<Step>): Dir
    decreases |steps|
  {
    if steps == [] then d else ApplyAll(Apply(d, steps[0]), steps[1..])
  }

  lemma {:induction false} ApplyConcat(d: Dir, a: seq<Step>, b: seq<Step>)
    ensures ApplyAll(d, a + b) == ApplyAll(ApplyAll(d, a), b)
    decreases |a|
  {
    if a == [] {
      assert a + b == b;
    } else {
      assert (a + b)[1..] == a[1..] + b;
      ApplyConcat(Apply(d, a[0]), a[1..], b);
    }
  }

  // ---------------------------------------------------------------- the operations

  /** The checkpoint with the latest modification time. */
  ghost predicate IsLatest(ckpts: map<nat, File>, n: nat) {
    n in ckpts && forall k :: k in ckpts ==> ckpts[k].mtime <= ckpts[n].mtime
  }

  lemma {:induction false} LatestExists(ckpts: map<nat, File>)
    requires ckpts != map[]
    ensures exists n :: IsLatest(ckpts, n)
    decreases |ckpts|
  {
    var n :| n in ckpts;
    var rest := ckpts - {n};
    if rest == map[] {
      assert forall k :: k in ckpts ==> k == n || k in rest;
      assert IsLatest(ckpts, n);
    } else {
      assert rest.Keys == ckpts.Keys - {n};
      LatestExists(rest);
      var m :| IsLatest(rest, m);
      assert forall k :: k in ckpts ==> k == n || k in rest;
      assert IsLatest(ckpts, if ckpts[m].mtime < ckpts[n].mtime then n else m);
    }
  }

  ghost function Latest(ckpts: map<nat, File>): (n: nat)
    requires ckpts != map[]
    ensures IsLatest(ckpts, n)
  {
    LatestExists(ckpts);
    var n: nat :| IsLatest(ckpts, n);
    n
  }

  /** The number of the next checkpoint: one more than the latest touched, not the largest. */
  ghost function NextCkpt(ckpts: map<nat, File>): nat {
    if ckpts == map[] then 0 else Latest(ckpts) + 1
  }

  function WriteJson(to: Name, doc: string): seq<Step> {
    [OpenTemp, WriteTemp(doc), RenameTemp(to)]
  }

  function SetCurrent(n: nat): seq<Step> {
    [Unlink, Link(n), Touch(n)]
  }

  /** Create is create_model; Save is save_model, InPlace save_model without a new checkpoint,
      Configure save_model without the state; Update is save_state; Restore is set_current_ckpt
      behind the server's check. */
  datatype Op =
    | Create(settings: string)
    | Save(settings: string, state: string)
    | InPlace(settings: string, state: string)
    | Configure(settings: string)
    | Update(state: string)
    | Restore(n: nat)

  datatype Error = ModelExists | NoState | NoSuchVersion

  ghost function Steps(d: Dir, op: Op): seq<Step> {
    match op
    case Create(settings) => if d.present then [] else [MakeDir] + WriteJson(Settings, settings)
    case Save(settings, state) =>
      var n := NextCkpt(d.ckpts);
      [MakeDir] + WriteJson(Settings, settings) + WriteJson(Ckpt(n), state) + SetCurrent(n)
    case InPlace(settings, state) =>
      [MakeDir] + WriteJson(Settings, settings) + UpdateSteps(d, state)
    case Configure(settings) => [MakeDir] + WriteJson(Settings, settings)
    case Update(state) => UpdateSteps(d, state)
    case Restore(n) => if n in d.ckpts then SetCurrent(n) else []
  }

  function UpdateSteps(d: Dir, state: string): seq<Step> {
    if d.current.Some? then WriteJson(Ckpt(d.current.value), state) else []
  }

  function Failure(d: Dir, op: Op): Option<Error> {
    match op
    case Create(_) => if d.present then Some(ModelExists) else None
    case InPlace(_, _) => if d.current.None? then Some(NoState) else None
    case Update(_) => if d.current.None? then Some(NoState) else None
    case Restore(n) => if n in d.ckpts then None else Some(NoSuchVersion)
    case _ => None
  }

  /** The documents an operation writes, and where. */
  ghost function Writes(d: Dir, op: Op): map<Name, string> {
    match op
    case Create(settings) => if d.present then map[] else map[Settings := settings]
    case Save(settings, state) => map[Settings := settings, Ckpt(NextCkpt(d.ckpts)) := state]
    case InPlace(settings, state) =>
      if d.current.Some? then map[Settings := settings, Ckpt(d.current.value) := state] else map[Settings := settings]
    case Configure(settings) => map[Settings := settings]
    case Update(state) => if d.current.Some? then map[Ckpt(d.current.value) := state] else map[]
    case Restore(_) => map[]
  }

  // ---------------------------------------------------------------- crash safety

  ghost predicate IsComplete(f: File) { f.content.Json? }

  ghost predicate Contiguous(ckpts: map<nat, File>) {
    forall n: nat :: n in ckpts <==> n < |ckpts|
  }

  /** Writing number n keeps the numbers contiguous. */
  ghost predicate Fits(ckpts: map<nat, File>, n: nat) {
    n in ckpts || n == |ckpts|
  }

  /** Checkpoint numbers are contiguous from 0, the link is absent or names a checkpoint, and
      every JSON file holds a complete document; modification times are all different. */
  ghost predicate Sound(d: Dir) {
    && Contiguous(d.ckpts)
    && (d.current.Some? ==> d.current.value in d.ckpts)
    && (d.settings.Some? ==> IsComplete(d.settings.value))
    && (forall n :: n in d.ckpts ==> IsComplete(d.ckpts[n]))
    && TimesDiffer(d)
  }

  ghost predicate TimesDiffer(d: Dir) {
    && (forall n :: n in d.ckpts ==> d.ckpts[n].mtime < d.clock)
    && (forall m, n :: m in d.ckpts && n in d.ckpts && m != n ==> d.ckpts[m].mtime != d.ckpts[n].mtime)
    && (d.temp.Some? ==> d.temp.value.mtime < d.clock)
    && (d.temp.Some? ==> forall n :: n in d.ckpts ==> d.ckpts[n].mtime != d.temp.value.mtime)
  }

  ghost function ContentOf(d: Dir, name: Name): Option<Content> {
    match name
    case Settings => if d.settings.Some? then Some(d.settings.value.content) else None
    case Ckpt(n) => if n in d.ckpts then Some(d.ckpts[n].content) else None
  }

  /** A step an operation with these writes may make. */
  ghost predicate Allowed(d: Dir, s: Step, writes: map<Name, string>) {
    match s
    case RenameTemp(to) =>
      && d.temp.Some? && to in writes && d.temp.value.content == Json(writes[to])
      && (to.Ckpt? ==> Fits(d.ckpts, to.n))
    case Link(n) => n in d.ckpts
    case Touch(n) => n in d.ckpts
    case _ => true
  }

  ghost predicate AllAllowed(d: Dir, steps: seq<Step>, writes: map<Name, string>)
    decreases |steps|
  {
    steps == [] || (Allowed(d, steps[0], writes) && AllAllowed(Apply(d, steps[0]), steps[1..], writes))
  }

  lemma {:induction false} AllowedConcat(d: Dir, a: seq<Step>, b: seq<Step>, writes: map<Name, string>)
    ensures AllAllowed(d, a + b, writes) <==> AllAllowed(d, a, writes) && AllAllowed(ApplyAll(d, a), b, writes)
    decreases |a|
  {
    if a == [] {
      assert a + b == b;
    } else {
      assert (a + b)[1..] == a[1..] + b;
      AllowedConcat(Apply(d, a[0]), a[1..], b, writes);
    }
  }

  ghost predicate OldOrNew(old0: Dir, d: Dir, writes: map<Name, string>) {
    forall name :: ContentOf(d, name) == ContentOf(old0, name) ||
      (name in writes && ContentOf(d, name) == Some(Json(writes[name])))
  }

  lemma ExtendContiguous(ckpts: map<nat, File>, n: nat, f: File)
    requires Contiguous(ckpts) && Fits(ckpts, n)
    ensures Contiguous(ckpts[n := f])
  {
    if n in ckpts {
      assert |ckpts[n := f]| == |ckpts|;
    } else {
      assert |ckpts[n := f]| == |ckpts| + 1;
    }
  }

  /** Writing checkpoint n, the next one at most, with a time no other file has. */
  lemma PutIsSound(d: Dir, n: nat, f: File, d': Dir)
    requires Sound(d) && Fits(d.ckpts, n) && IsComplete(f) && f.mtime <= d.clock
    requires forall k :: k in d.ckpts ==> d.ckpts[k].mtime != f.mtime
    requires d' == d.(ckpts := d.ckpts[n := f], temp := d'.temp, clock := d.clock + 1)
    requires d'.temp.None? || (d'.temp == d.temp && d.temp.value.mtime != f.mtime)
    ensures Sound(d')
  {
    assert Contiguous(d'.ckpts) by {
      ExtendContiguous(d.ckpts, n, f);
    }
    hide Contiguous;
    forall k | k in d'.ckpts
      ensures IsComplete(d'.ckpts[k]) && d'.ckpts[k].mtime < d'.clock
    {
      assert k == n || k in d.ckpts;
    }
  }

  lemma StepIsSound(d: Dir, s: Step, writes: map<Name, string>)
    requires Sound(d) && Allowed(d, s, writes)
    ensures Sound(Apply(d, s))
  {
    hide Contiguous;
    var d' := Apply(d, s);
    match s {
      case RenameTemp(to) =>
        if to.Ckpt? {
          PutIsSound(d, to.n, d.temp.value, d');
        }
      case Touch(n) =>
        PutIsSound(d, n, File(d.ckpts[n].content, d.clock), d');
      case _ =>
    }
  }

  lemma StepIsOldOrNew(old0: Dir, d: Dir, s: Step, writes: map<Name, string>)
    requires Allowed(d, s, writes) && OldOrNew(old0, d, writes)
    ensures OldOrNew(old0, Apply(d, s), writes)
  {
    StepChangesLittle(d, s, writes);
    OldOrNewNext(old0, d, Apply(d, s), writes);
  }

  lemma StepChangesLittle(d: Dir, s: Step, writes: map<Name, string>)
    requires Allowed(d, s, writes)
    ensures OldOrNew(d, Apply(d, s), writes)
  {
  }

  lemma OldOrNewNext(old0: Dir, d: Dir, d': Dir, writes: map<Name, string>)
    requires OldOrNew(old0, d, writes) && OldOrNew(d, d', writes)
    ensures OldOrNew(old0, d', writes)
  {
    hide ContentOf;
  }

  lemma {:induction false} PrefixIsSound(old0: Dir, d: Dir, steps: seq<Step>, k: nat, writes: map<Name, string>)
    requires Sound(d) && AllAllowed(d, steps, writes) && OldOrNew(old0, d, writes) && k <= |steps|
    decreases k
    ensures var d' := ApplyAll(d, steps[..k]); Sound(d') && OldOrNew(old0, d', writes)
  {
    hide Sound, OldOrNew, Allowed, Apply;
    if k == 0 {
    } else {
      StepIsSound(d, steps[0], writes);
      StepIsOldOrNew(old0, d, steps[0], writes);
      PrefixIsSound(old0, Apply(d, steps[0]), steps[1..], k - 1, writes);
      assert steps[..k][1..] == steps[1..][..k - 1];
    }
  }

  // ---------------------------------------------------------------- what the operations do

  function Made(d: Dir): Dir {
    d.(present := true, clock := d.clock + 1)
  }

  function Written(d: Dir, to: Name, doc: string): Dir {
    var f := File(Json(doc), d.clock + 1);
    var d' := d.(temp := None, clock := d.clock + 3);
    if to.Settings? then d'.(settings := Some(f)) else d'.(ckpts := d.ckpts[to.n := f])
  }

  function Selected(d: Dir, n: nat): Dir
    requires n in d.ckpts
  {
    d.(current := Some(n), ckpts := d.ckpts[n := d.ckpts[n].(mtime := d.clock + 2)], clock := d.clock + 3)
  }

  lemma WriteJsonEffect(d: Dir, to: Name, doc: string, writes: map<Name, string>)
    ensures ApplyAll(d, WriteJson(to, doc)) == Written(d, to, doc)
    ensures to in writes && writes[to] == doc && (to.Ckpt? ==> Fits(d.ckpts, to.n)) ==>
      AllAllowed(d, WriteJson(to, doc), writes)
  {
    var s := WriteJson(to, doc);
    var d1 := Apply(d, s[0]);
    var d2 := Apply(d1, s[1]);
    var d3 := Apply(d2, s[2]);
    assert s[1..] == [s[1], s[2]] && s[1..][1..] == [s[2]] && s[1..][1..][1..] == [];
    assert ApplyAll(d2, [s[2]]) == d3 && ApplyAll(d1, s[1..]) == d3;
    assert d3 == Written(d, to, doc);
    assert AllAllowed(d3, [], writes);
    assert Allowed(d2, s[2], writes) ==> AllAllowed(d2, [s[2]], writes) && AllAllowed(d1, s[1..], writes);
  }

  lemma SetCurrentEffect(d: Dir, n: nat, writes: map<Name, string>)
    requires n in d.ckpts
    ensures ApplyAll(d, SetCurrent(n)) == Selected(d, n) && AllAllowed(d, SetCurrent(n), writes)
  {
    var s := SetCurrent(n);
    var d1 := Apply(d, s[0]);
    var d2 := Apply(d1, s[1]);
    var d3 := Apply(d2, s[2]);
    assert s[1..] == [s[1], s[2]] && s[1..][1..] == [s[2]] && s[1..][1..][1..] == [];
    assert ApplyAll(d2, [s[2]]) == d3 && ApplyAll(d1, s[1..]) == d3;
    assert d3 == Selected(d, n);
    assert AllAllowed(d2, [s[2]], writes) && AllAllowed(d1, s[1..], writes);
  }

  lemma MakeDirEffect(d: Dir, writes: map<Name, string>)
    ensures ApplyAll(d, [MakeDir]) == Made(d) && AllAllowed(d, [MakeDir], writes)
  {
    assert [MakeDir][1..] == [];
    assert AllAllowed(Apply(d, MakeDir), [], writes);
  }

  /** The directory after an operation. */
  ghost function After(d: Dir, op: Op): Dir {
    match op
    case Create(settings) => if d.present then d else Written(Made(d), Settings, settings)
    case Save(settings, state) =>
      Selected(Written(Written(Made(d), Settings, settings), Ckpt(NextCkpt(d.ckpts)), state), NextCkpt(d.ckpts))
    case InPlace(settings, state) => Updated(Written(Made(d), Settings, settings), state)
    case Configure(settings) => Written(Made(d), Settings, settings)
    case Update(state) => Updated(d, state)
    case Restore(n) => if n in d.ckpts then Selected(d, n) else d
  }

  function Updated(d: Dir, state: string): Dir {
    if d.current.Some? then Written(d, Ckpt(d.current.value), state) else d
  }

  lemma ConfigureSteps(d: Dir, settings: string, writes: map<Name, string>)
    requires Settings in writes && writes[Settings] == settings
    ensures var steps := [MakeDir] + WriteJson(Settings, settings);
      ApplyAll(d, steps) == Written(Made(d), Settings, settings) && AllAllowed(d, steps, writes)
  {
    MakeDirEffect(d, writes);
    WriteJsonEffect(Made(d), Settings, settings, writes);
    ApplyConcat(d, [MakeDir], WriteJson(Settings, settings));
    AllowedConcat(d, [MakeDir], WriteJson(Settings, settings), writes);
  }

  lemma SaveSteps(d: Dir, settings: string, n: nat, state: string, writes: map<Name, string>)
    requires Fits(d.ckpts, n) && writes == map[Settings := settings, Ckpt(n) := state]
    ensures var steps := [MakeDir] + WriteJson(Settings, settings) + WriteJson(Ckpt(n), state) + SetCurrent(n);
      && ApplyAll(d, steps) == Selected(Written(Written(Made(d), Settings, settings), Ckpt(n), state), n)
      && AllAllowed(d, steps, writes)
  {
    hide ApplyAll, AllAllowed, WriteJson, SetCurrent;
    var a, b, c := [MakeDir] + WriteJson(Settings, settings), WriteJson(Ckpt(n), state), SetCurrent(n);
    var d1 := Written(Made(d), Settings, settings);
    ConfigureSteps(d, settings, writes);
    WriteJsonEffect(d1, Ckpt(n), state, writes);
    SetCurrentEffect(Written(d1, Ckpt(n), state), n, writes);
    ApplyConcat(d, a, b);
    ApplyConcat(d, a + b, c);
    AllowedConcat(d, a, b, writes);
    AllowedConcat(d, a + b, c, writes);
  }

  lemma NextFits(d: Dir)
    requires Sound(d)
    ensures Fits(d.ckpts, NextCkpt(d.ckpts))
  {
  }

  /** An operation makes only allowed steps, and this is what they amount to. */
  lemma StepsEffect(d: Dir, op: Op)
    requires Sound(d)
    ensures ApplyAll(d, Steps(d, op)) == After(d, op) && AllAllowed(d, Steps(d, op), Writes(d, op))
  {
    hide ApplyAll, AllAllowed, WriteJson, SetCurrent;
    var writes := Writes(d, op);
    NothingEffect(d, writes);
    match op {
      case Create(settings) =>
        if !d.present {
          ConfigureSteps(d, settings, writes);
        }
      case Save(settings, state) =>
        NextFits(d);
        SaveSteps(d, settings, NextCkpt(d.ckpts), state, writes);
      case InPlace(settings, state) =>
        var a, b := [MakeDir] + WriteJson(Settings, settings), UpdateSteps(d, state);
        ConfigureSteps(d, settings, writes);
        var d1 := Written(Made(d), Settings, settings);
        NothingEffect(d1, writes);
        if d.current.Some? {
          WriteJsonEffect(d1, Ckpt(d.current.value), state, writes);
        }
        ApplyConcat(d, a, b);
        AllowedConcat(d, a, b, writes);
      case Configure(settings) =>
        ConfigureSteps(d, settings, writes);
      case Update(state) =>
        if d.current.Some? {
          WriteJsonEffect(d, Ckpt(d.current.value), state, writes);
        }
      case Restore(n) =>
        if n in d.ckpts {
          SetCurrentEffect(d, n, writes);
        }
    }
  }

  lemma NothingEffect(d: Dir, writes: map<Name, string>)
    ensures ApplyAll(d, []) == d && AllAllowed(d, [], writes)
  {
  }

  // ---------------------------------------------------------------- runs with crashes

  /** An operation, cut short after that many steps if there is a crash. */
  datatype Event = Event(op: Op, crashAfter: Option<nat>)

  ghost function StepsOf(d: Dir, e: Event): seq<Step> {
    var steps := Steps(d, e.op);
    if e.crashAfter.Some? && e.crashAfter.value <= |steps| then steps[..e.crashAfter.value] else steps
  }

  ghost function Run(d: Dir, events: seq<Event>): Dir {
    if events == [] then d else
      var before := Run(d, events[..|events| - 1]);
      ApplyAll(before, StepsOf(before, events[|events| - 1]))
  }

  /** Whatever is done and wherever it crashes, the directory stays sound, and each file holds
      what it held before the operation or the complete new document. */
  lemma EventIsSound(d: Dir, e: Event)
    requires Sound(d)
    ensures var d' := ApplyAll(d, StepsOf(d, e)); Sound(d') && OldOrNew(d, d', Writes(d, e.op))
  {
    hide Sound, OldOrNew, ApplyAll, AllAllowed;
    var steps := Steps(d, e.op);
    StepsEffect(d, e.op);
    assert OldOrNew(d, d, Writes(d, e.op)) by {
      NothingIsOld(d, Writes(d, e.op));
    }
    PrefixIsSound(d, d, steps, |StepsOf(d, e)|, Writes(d, e.op));
    assert steps[..|steps|] == steps;
  }

  lemma NothingIsOld(d: Dir, writes: map<Name, string>)
    ensures OldOrNew(d, d, writes)
  {
  }

  lemma {:induction false} RunIsSound(events: seq<Event>)
    ensures Sound(Run(NO_DIR, events))
  {
    if events == [] {
    } else {
      RunIsSound(events[..|events| - 1]);
      EventIsSound(Run(NO_DIR, events[..|events| - 1]), events[|events| - 1]);
    }
  }

  // ---------------------------------------------------------------- runs without crashes

  /** The current checkpoint is the one touched last, and there is one as soon as there are any. */
  ghost predicate Tidy(d: Dir) {
    && Sound(d)
    && (d.current.None? <==> d.ckpts == map[])
    && (d.current.Some? ==> IsLatest(d.ckpts, d.current.value))
  }

  /** Modification times differ, so only one checkpoint is the latest. */
  lemma LatestIsUnique(d: Dir, n: nat)
    requires Sound(d) && IsLatest(d.ckpts, n)
    ensures Latest(d.ckpts) == n
  {
  }

  lemma NextIsCurrentPlusOne(d: Dir)
    requires Tidy(d)
    ensures NextCkpt(d.ckpts) == if d.current.Some? then d.current.value + 1 else 0
  {
    if d.current.Some? {
      LatestIsUnique(d, d.current.value);
    }
  }

  ghost function RunAll(d: Dir, ops: seq<Op>): Dir {
    if ops == [] then d else After(RunAll(d, ops[..|ops| - 1]), ops[|ops| - 1])
  }

  /** Completing an operation keeps the directory tidy. */
  lemma CompletedIsTidy(d: Dir, op: Op)
    requires Tidy(d)
    ensures Tidy(After(d, op))
  {
    EventIsSound(d, Event(op, None));
    StepsEffect(d, op);
    LatestAfter(d, op);
  }

  /** In every run of operations that complete, restores included, the current checkpoint is the one
      touched last. */
  lemma {:induction false} RunIsTidy(ops: seq<Op>)
    ensures Tidy(RunAll(NO_DIR, ops))
  {
    hide After;
    if ops == [] {
      assert Contiguous(NO_DIR.ckpts);
    } else {
      RunIsTidy(ops[..|ops| - 1]);
      CompletedIsTidy(RunAll(NO_DIR, ops[..|ops| - 1]), ops[|ops| - 1]);
    }
  }

  lemma LatestAfter(d: Dir, op: Op)
    requires Tidy(d)
    ensures var d' := After(d, op);
      && (d'.current.None? <==> d'.ckpts == map[])
      && (d'.current.Some? ==> IsLatest(d'.ckpts, d'.current.value))
  {
    hide Contiguous;
    var d' := After(d, op);
    if d'.current.Some? {
      var n := d'.current.value;
      assert n in d'.ckpts;
      assert forall k :: k in d'.ckpts && k != n ==> k in d.ckpts && d'.ckpts[k] == d.ckpts[k];
    }
  }

  /** What is loaded: settings, and the state the link leads to. */
  function Load(d: Dir): (Option<Content>, Option<Content>) {
    (if d.settings.Some? then Some(d.settings.value.content) else None,
     if d.current.Some? && d.current.value in d.ckpts then Some(d.ckpts[d.current.value].content) else None)
  }

  /** Without crashes a save writes the checkpoint after the current one, makes it current and
      changes no other; loading then gives back what was saved. */
  lemma SaveThenLoad(d: Dir, settings: string, state: string)
    requires Tidy(d)
    ensures var n := if d.current.Some? then d.current.value + 1 else 0;
      var d' := ApplyAll(d, Steps(d, Save(settings, state)));
      && Load(d') == (Some(Json(settings)), Some(Json(state)))
      && d'.current == Some(n)
      && d'.ckpts.Keys == d.ckpts.Keys + {n}
      && forall k :: k in d.ckpts && k != n ==> d'.ckpts[k] == d.ckpts[k]
  {
    hide ApplyAll, Steps, NextCkpt;
    StepsEffect(d, Save(settings, state));
    NextIsCurrentPlusOne(d);
  }

  /** Creating a model in a directory that is not there succeeds: its settings are loaded back, and
      checkpoints and link are as before. In one that is there it fails and changes nothing. */
  lemma CreateWritesSettings(d: Dir, settings: string)
    requires Sound(d)
    ensures var d' := ApplyAll(d, Steps(d, Create(settings)));
      if d.present then d' == d && Failure(d, Create(settings)) == Some(ModelExists)
      else
        && Failure(d, Create(settings)) == None
        && d'.present && Load(d').0 == Some(Json(settings))
        && d'.ckpts == d.ckpts && d'.current == d.current
  {
    hide ApplyAll, Steps;
    StepsEffect(d, Create(settings));
  }

  /** Saving without the state writes the settings and leaves checkpoints and link alone. */
  lemma ConfigureWritesSettings(d: Dir, settings: string)
    requires Sound(d)
    ensures var d' := ApplyAll(d, Steps(d, Configure(settings)));
      && Failure(d, Configure(settings)) == None
      && d'.present && Load(d') == (Some(Json(settings)), Load(d).1)
      && d'.ckpts == d.ckpts && d'.current == d.current
  {
    hide ApplyAll, Steps;
    StepsEffect(d, Configure(settings));
  }

  /** Saving without a new checkpoint writes the settings and replaces the current state; without a
      current one it fails, with the settings written. */
  lemma InPlaceWritesBoth(d: Dir, settings: string, state: string)
    requires Sound(d)
    ensures var d' := ApplyAll(d, Steps(d, InPlace(settings, state)));
      && d'.present && Load(d').0 == Some(Json(settings)) && d'.current == d.current
      && if d.current.None? then Failure(d, InPlace(settings, state)) == Some(NoState) && d'.ckpts == d.ckpts
         else
           && Failure(d, InPlace(settings, state)) == None && Load(d').1 == Some(Json(state))
           && d'.ckpts.Keys == d.ckpts.Keys
           && forall k :: k in d.ckpts && k != d.current.value ==> d'.ckpts[k] == d.ckpts[k]
  {
    hide ApplyAll, Steps;
    StepsEffect(d, InPlace(settings, state));
  }

  /** The other failures: an update needs a current checkpoint, a restore the version it names; a save
      has none. A failing one changes nothing. */
  lemma WhenOthersFail(d: Dir, settings: string, state: string, n: nat)
    ensures Failure(d, Update(state)) == (if d.current.None? then Some(NoState) else None)
    ensures Failure(d, Restore(n)) == (if n in d.ckpts then None else Some(NoSuchVersion))
    ensures Failure(d, Save(settings, state)) == None
    ensures d.current.None? ==> ApplyAll(d, Steps(d, Update(state))) == d
    ensures n !in d.ckpts ==> ApplyAll(d, Steps(d, Restore(n))) == d
  {
  }

  /** What a completed operation writes is in place afterwards, and no other file has another
      content than before. */
  lemma WritesAreWritten(d: Dir, op: Op, name: Name)
    requires Sound(d)
    ensures ContentOf(ApplyAll(d, Steps(d, op)), name) ==
      if name in Writes(d, op) then Some(Json(Writes(d, op)[name])) else ContentOf(d, name)
  {
    hide ApplyAll, Steps, NextCkpt, Contiguous;
    StepsEffect(d, op);
  }

  /** Updating in place replaces the current state only. */
  lemma UpdateReplacesState(d: Dir, state: string)
    requires Tidy(d) && d.current.Some?
    ensures var d' := ApplyAll(d, Steps(d, Update(state)));
      && Load(d') == (Load(d).0, Some(Json(state))) && d'.current == d.current
      && d'.ckpts.Keys == d.ckpts.Keys
      && forall k :: k in d.ckpts && Some(k) != d.current ==> d'.ckpts[k] == d.ckpts[k]
  {
    hide ApplyAll, Steps;
    StepsEffect(d, Update(state));
  }

  /** Restoring brings back exactly what the checkpoint held, and changes the content of none. */
  lemma RestoreBringsBack(d: Dir, n: nat)
    requires Tidy(d) && n in d.ckpts
    ensures var d' := ApplyAll(d, Steps(d, Restore(n)));
      && Load(d') == (Load(d).0, Some(d.ckpts[n].content)) && d'.current == Some(n)
      && d'.ckpts.Keys == d.ckpts.Keys
      && forall k :: k in d.ckpts ==> d'.ckpts[k].content == d.ckpts[k].content
  {
    hide ApplyAll, Steps;
    StepsEffect(d, Restore(n));
  }

  /** The current checkpoint has the largest number. */
  ghost predicate AtEnd(d: Dir) {
    d.current.Some? ==> d.current.value + 1 == |d.ckpts|
  }

  /** In every sound directory, so also in what a crash leaves, the next save overwrites a checkpoint
      if and only if the one with the latest modification time does not have the largest number. */
  lemma SaveOverwrites(d: Dir)
    requires Sound(d)
    ensures NextCkpt(d.ckpts) in d.ckpts <==> exists n: nat :: IsLatest(d.ckpts, n) && n + 1 != |d.ckpts|
  {
    if d.ckpts != map[] {
      var n := Latest(d.ckpts);
      assert NextCkpt(d.ckpts) == n + 1;
      assert forall k :: IsLatest(d.ckpts, k) ==> k == n;
    }
  }

  lemma TidySaveOverwrites(d: Dir)
    requires Tidy(d)
    ensures NextCkpt(d.ckpts) in d.ckpts <==> !AtEnd(d)
  {
    NextIsCurrentPlusOne(d);
  }

  /** Only restoring moves away from the last checkpoint, so in a run without restores (and
      crashes) no save ever overwrites one. */
  lemma {:induction false} NoRestoreNoOverwrite(ops: seq<Op>)
    requires forall k :: 0 <= k < |ops| ==> !ops[k].Restore?
    ensures var d := RunAll(NO_DIR, ops); Tidy(d) && AtEnd(d) && NextCkpt(d.ckpts) !in d.ckpts
  {
    if ops == [] {
      assert Contiguous(NO_DIR.ckpts);
    } else {
      var before := RunAll(NO_DIR, ops[..|ops| - 1]);
      NoRestoreNoOverwrite(ops[..|ops| - 1]);
      CompletedIsTidy(before, ops[|ops| - 1]);
      StaysAtEnd(before, ops[|ops| - 1]);
    }
    TidySaveOverwrites(RunAll(NO_DIR, ops));
  }

  lemma StaysAtEnd(d: Dir, op: Op)
    requires Tidy(d) && AtEnd(d) && !op.Restore?
    ensures AtEnd(After(d, op))
  {
    hide NextCkpt;
    NextIsCurrentPlusOne(d);
    if op.Save? {
      var n := NextCkpt(d.ckpts);
      assert n == |d.ckpts| && n !in d.ckpts;
      assert |After(d, op).ckpts| == |d.ckpts| + 1;
    } else if d.current.Some? {
      assert After(d, op).ckpts.Keys == d.ckpts.Keys;
      assert |After(d, op).ckpts.Keys| == |After(d, op).ckpts|;
    }
  }

  // ---------------------------------------------------------------- what was touched last

  /** The checkpoint that file-system calls wrote or touched last. */
  ghost function Touched(steps: seq<Step>): Option<nat> {
    if steps == [] then None else
      match steps[|steps| - 1]
      case Touch(n) => Some(n)
      case RenameTemp(Ckpt(n)) => Some(n)
      case _ => Touched(steps[..|steps| - 1])
  }

  /** What is renamed has just been written. */
  ghost predicate WrittenFirst(steps: seq<Step>) {
    forall k :: 0 <= k < |steps| && steps[k].RenameTemp? ==> k > 0 && steps[k - 1].WriteTemp?
  }

  /** One more than the checkpoint touched last, if any. */
  ghost function NextAfter(touched: Option<nat>, otherwise: nat): nat {
    if touched.Some? then touched.value + 1 else otherwise
  }

  lemma PutMakesLatest(d: Dir, n: nat, f: File)
    requires forall k :: k in d.ckpts ==> d.ckpts[k].mtime < f.mtime
    ensures NextCkpt(d.ckpts[n := f]) == n + 1
  {
    var ckpts := d.ckpts[n := f];
    assert n in ckpts;
    assert IsLatest(ckpts, Latest(ckpts));
  }

  lemma TouchingStep(d: Dir, s: Step, writes: map<Name, string>)
    requires Sound(d) && Allowed(d, s, writes)
    requires s.RenameTemp? ==> d.temp.Some? && forall k :: k in d.ckpts ==> d.ckpts[k].mtime < d.temp.value.mtime
    ensures NextCkpt(Apply(d, s).ckpts) == NextAfter(Touched([s]), NextCkpt(d.ckpts))
  {
    hide NextCkpt, Contiguous;
    assert [s][..0] == [];
    match s {
      case Touch(n) => PutMakesLatest(d, n, File(d.ckpts[n].content, d.clock));
      case RenameTemp(to) =>
        if to.Ckpt? {
          PutMakesLatest(d, to.n, d.temp.value);
        }
      case _ =>
    }
  }

  lemma TouchedNext(steps: seq<Step>, otherwise: nat)
    requires steps != []
    ensures var n := |steps| - 1;
      NextAfter(Touched(steps), otherwise) == NextAfter(Touched([steps[n]]), NextAfter(Touched(steps[..n]), otherwise))
  {
    assert [steps[|steps| - 1]][..0] == [];
  }

  lemma LastStep(d: Dir, steps: seq<Step>, writes: map<Name, string>)
    requires steps != [] && AllAllowed(d, steps, writes)
    ensures var n := |steps| - 1;
      && AllAllowed(d, steps[..n], writes)
      && Allowed(ApplyAll(d, steps[..n]), steps[n], writes)
      && ApplyAll(d, steps) == Apply(ApplyAll(d, steps[..n]), steps[n])
  {
    hide Allowed, Apply;
    var n := |steps| - 1;
    var a, b := steps[..n], [steps[n]];
    assert steps == a + b && b[1..] == [];
    ApplyConcat(d, a, b);
    AllowedConcat(d, a, b, writes);
    assert ApplyAll(Apply(ApplyAll(d, a), steps[n]), []) == Apply(ApplyAll(d, a), steps[n]);
  }

  lemma JustWritten(d: Dir, doc: string)
    requires Sound(d)
    ensures var d' := Apply(d, WriteTemp(doc));
      d'.temp.Some? && forall k :: k in d'.ckpts ==> d'.ckpts[k].mtime < d'.temp.value.mtime
  {
  }

  /** Calls of an operation, up to any of them: the next save goes by the one touched last. */
  lemma {:induction false} NextIsAfterTouched(d: Dir, steps: seq<Step>, writes: map<Name, string>)
    requires Sound(d) && AllAllowed(d, steps, writes) && WrittenFirst(steps)
    ensures Sound(ApplyAll(d, steps))
    ensures NextCkpt(ApplyAll(d, steps).ckpts) == NextAfter(Touched(steps), NextCkpt(d.ckpts))
  {
    hide Sound, Allowed, Apply, NextCkpt, Touched, AllAllowed, ApplyAll, NextAfter;
    NothingEffect(d, writes);
    if steps == [] {
      NothingTouched(NextCkpt(d.ckpts));
    } else {
      var n := |steps| - 1;
      var before := ApplyAll(d, steps[..n]);
      LastStep(d, steps, writes);
      NextIsAfterTouched(d, steps[..n], writes);
      StepIsSound(before, steps[n], writes);
      if steps[n].RenameTemp? {
        LastStep(d, steps[..n], writes);
        assert steps[..n][..n - 1] == steps[..n - 1];
        NextIsAfterTouched(d, steps[..n - 1], writes);
        JustWritten(ApplyAll(d, steps[..n - 1]), steps[n - 1].doc);
      }
      TouchingStep(before, steps[n], writes);
      TouchedNext(steps, NextCkpt(d.ckpts));
    }
  }

  lemma NothingTouched(otherwise: nat)
    ensures NextAfter(Touched([]), otherwise) == otherwise
  {
  }

  lemma StepsWriteFirst(d: Dir, op: Op)
    ensures WrittenFirst(Steps(d, op))
  {
    hide NextCkpt;
  }

  /** The checkpoint touched last in a run. */
  ghost function LastTouched(events: seq<Event>): Option<nat> {
    if events == [] then None else
      var n := |events| - 1;
      var touched := Touched(StepsOf(Run(NO_DIR, events[..n]), events[n]));
      if touched.Some? then touched else LastTouched(events[..n])
  }

  lemma NextAfterEvent(d: Dir, e: Event)
    requires Sound(d)
    ensures NextCkpt(ApplyAll(d, StepsOf(d, e)).ckpts) == NextAfter(Touched(StepsOf(d, e)), NextCkpt(d.ckpts))
  {
    hide Sound, ApplyAll, AllAllowed, Touched, NextCkpt, Steps;
    var steps, n := Steps(d, e.op), |StepsOf(d, e)|;
    StepsEffect(d, e.op);
    StepsWriteFirst(d, e.op);
    assert steps == steps[..n] + steps[n..];
    AllowedConcat(d, steps[..n], steps[n..], Writes(d, e.op));
    assert StepsOf(d, e) == steps[..n];
    NextIsAfterTouched(d, steps[..n], Writes(d, e.op));
  }

  lemma {:induction false} NextIsAfterLastTouched(events: seq<Event>)
    ensures NextCkpt(Run(NO_DIR, events).ckpts) == NextAfter(LastTouched(events), 0)
  {
    hide NextCkpt, ApplyAll, StepsOf, Touched;
    if events == [] {
      NoCkpts();
    } else {
      NextIsAfterLastTouched(events[..|events| - 1]);
      RunIsSound(events[..|events| - 1]);
      NextAfterEvent(Run(NO_DIR, events[..|events| - 1]), events[|events| - 1]);
    }
  }

  lemma NoCkpts()
    ensures NextCkpt(map[]) == 0
  {
  }

  /** In every run, crashes and restores included: the next save overwrites a checkpoint if and only
      if the one touched last, by whatever operation, does not have the largest number; and what it
      overwrites is the one after that. */
  lemma RunOverwrites(events: seq<Event>)
    ensures var d, touched := Run(NO_DIR, events), LastTouched(events);
      && NextCkpt(d.ckpts) == (if touched.Some? then touched.value + 1 else 0)
      && (NextCkpt(d.ckpts) in d.ckpts <==> touched.Some? && touched.value + 1 != |d.ckpts|)
  {
    hide LastTouched, Run, NextCkpt;
    var d := Run(NO_DIR, events);
    RunIsSound(events);
    NextIsAfterLastTouched(events);
    NextFits(d);
    EmptyIffNext0(d);
  }

  lemma EmptyIffNext0(d: Dir)
    requires Sound(d)
    ensures NextCkpt(d.ckpts) == 0 <==> d.ckpts == map[]
    ensures NextCkpt(d.ckpts) in d.ckpts <==> NextCkpt(d.ckpts) < |d.ckpts|
  {
  }

  // ---------------------------------------------------------------- a save cut short

  /** What a save has done after k of its calls: the directory is made, then the settings are
      written, then the checkpoint, then the link is taken away, set to it, and it is touched. */
  ghost predicate SavedSoFar(d: Dir, settings: string, state: string, n: nat, k: nat, t: Dir) {
    && t.present == (k >= 1 || d.present)
    && (if k < 4 then t.settings == d.settings else t.settings.Some? && t.settings.value.content == Json(settings))
    && (if k < 7 then t.ckpts == d.ckpts
        else
          && t.ckpts.Keys == d.ckpts.Keys + {n} && t.ckpts[n].content == Json(state)
          && forall i :: i in d.ckpts && i != n ==> t.ckpts[i] == d.ckpts[i])
    && t.current == (if k < 8 then d.current else if k == 8 then None else Some(n))
  }

  ghost predicate TempSoFar(settings: string, state: string, k: nat, t: Dir) {
    && ((k == 3 || k == 6) ==> t.temp.Some?)
    && (k == 3 ==> t.temp.value.content == Json(settings))
    && (k == 6 ==> t.temp.value.content == Json(state))
  }

  function SaveCalls(settings: string, n: nat, state: string): (calls: seq<Step>)
    ensures |calls| == 10
  {
    [MakeDir, OpenTemp, WriteTemp(settings), RenameTemp(Settings),
     OpenTemp, WriteTemp(state), RenameTemp(Ckpt(n)), Unlink, Link(n), Touch(n)]
  }

  lemma SaveStep(d: Dir, settings: string, state: string, n: nat, k: nat, t: Dir)
    requires k < 10 && SavedSoFar(d, settings, state, n, k, t) && TempSoFar(settings, state, k, t)
    ensures var t' := Apply(t, SaveCalls(settings, n, state)[k]);
      SavedSoFar(d, settings, state, n, k + 1, t') && TempSoFar(settings, state, k + 1, t')
  {
  }

  lemma NextCall(d: Dir, steps: seq<Step>, k: nat)
    requires k < |steps|
    ensures ApplyAll(d, steps[..k + 1]) == Apply(ApplyAll(d, steps[..k]), steps[k])
  {
    hide Apply;
    assert steps[..k + 1] == steps[..k] + [steps[k]] && [steps[k]][1..] == [];
    ApplyConcat(d, steps[..k], [steps[k]]);
    assert ApplyAll(Apply(ApplyAll(d, steps[..k]), steps[k]), []) == Apply(ApplyAll(d, steps[..k]), steps[k]);
  }

  lemma {:induction false} SaveProgress(d: Dir, settings: string, state: string, n: nat, k: nat)
    requires k <= 10
    ensures var t := ApplyAll(d, SaveCalls(settings, n, state)[..k]);
      SavedSoFar(d, settings, state, n, k, t) && TempSoFar(settings, state, k, t)
  {
    hide SavedSoFar, TempSoFar, SaveCalls, Apply;
    if k == 0 {
      NothingSavedYet(d, settings, state, n);
    } else {
      SaveProgress(d, settings, state, n, k - 1);
      NextCall(d, SaveCalls(settings, n, state), k - 1);
      SaveStep(d, settings, state, n, k - 1, ApplyAll(d, SaveCalls(settings, n, state)[..k - 1]));
    }
  }

  lemma NothingSavedYet(d: Dir, settings: string, state: string, n: nat)
    ensures ApplyAll(d, SaveCalls(settings, n, state)[..0]) == d
    ensures SavedSoFar(d, settings, state, n, 0, d) && TempSoFar(settings, state, 0, d)
  {
  }

  /** A save that crashes after k of its ten calls, or completes: the settings come before the
      checkpoint, the checkpoint before the link, and after the eighth call nothing is current. */
  lemma SaveCutShort(d: Dir, settings: string, state: string, k: nat)
    requires k <= 10
    ensures SavedSoFar(d, settings, state, NextCkpt(d.ckpts), k, ApplyAll(d, StepsOf(d, Event(Save(settings, state), Some(k)))))
  {
    hide ApplyAll, SavedSoFar, NextCkpt;
    var n := NextCkpt(d.ckpts);
    assert Steps(d, Save(settings, state)) == SaveCalls(settings, n, state);
    SaveProgress(d, settings, state, n, k);
  }

  /** The hypothesis on crashes is needed: a save that crashes before the new checkpoint becomes
      current, then an update in place of the old one, and the next save overwrites the new one,
      though nothing was ever restored. */
  lemma CrashThenUpdateOverwrites(d: Dir, settings: string, state: string, update: string)
    requires Tidy(d) && AtEnd(d) && d.current.Some?
    ensures var crash := Event(Save(settings, state), Some(7));
      var d1 := ApplyAll(d, StepsOf(d, crash));
      var d2 := ApplyAll(d1, Steps(d1, Update(update)));
      && d1.current == d.current
      && NextCkpt(d2.ckpts) == |d.ckpts|
      && |d.ckpts| in d2.ckpts && d2.ckpts[|d.ckpts|].content == Json(state)
  {
    hide ApplyAll, Steps, StepsOf, NextCkpt;
    var n := |d.ckpts|;
    var crash := Event(Save(settings, state), Some(7));
    var d1 := ApplyAll(d, StepsOf(d, crash));
    NextIsCurrentPlusOne(d);
    CrashedSave(d, settings, n, state);
    EventIsSound(d, crash);
    StepsEffect(d1, Update(update));
    UpdateMakesLatest(d1, update);
  }

  /** Updating in place makes the current checkpoint the latest, whichever was. */
  lemma UpdateMakesLatest(d: Dir, state: string)
    requires Sound(d) && d.current.Some?
    ensures var d' := After(d, Update(state));
      && NextCkpt(d'.ckpts) == d.current.value + 1
      && forall k :: k in d.ckpts && k != d.current.value ==> k in d'.ckpts && d'.ckpts[k] == d.ckpts[k]
  {
    var d', c := After(d, Update(state)), d.current.value;
    assert Sound(d') by {
      EventIsSound(d, Event(Update(state), None));
      StepsEffect(d, Update(state));
    }
    assert IsLatest(d'.ckpts, c);
    LatestIsUnique(d', c);
  }

  lemma CrashedSave(d: Dir, settings: string, n: nat, state: string)
    requires NextCkpt(d.ckpts) == n
    ensures ApplyAll(d, StepsOf(d, Event(Save(settings, state), Some(7)))) ==
      Written(Written(Made(d), Settings, settings), Ckpt(n), state)
  {
    hide ApplyAll, NextCkpt;
    var a, b := [MakeDir] + WriteJson(Settings, settings), WriteJson(Ckpt(n), state);
    var writes := map[Settings := settings];
    assert Steps(d, Save(settings, state))[..7] == a + b;
    ConfigureSteps(d, settings, writes);
    WriteJsonEffect(Written(Made(d), Settings, settings), Ckpt(n), state, writes);
    ApplyConcat(d, a, b);
  }

  /** After restoring version v the next save overwrites version v + 1, if there is one, and
      nothing else. */
  lemma RestoreThenSave(d: Dir, v: nat, settings: string, state: string)
    requires Tidy(d) && v in d.ckpts
    ensures var d' := After(After(d, Restore(v)), Save(settings, state));
      && d'.current == Some(v + 1)
      && d'.ckpts.Keys == d.ckpts.Keys + {v + 1}
      && (v + 1 in d.ckpts <==> v + 1 < |d.ckpts|)
      && forall k :: k in d.ckpts && k != v + 1 ==> d'.ckpts[k].content == d.ckpts[k].content
  {
    hide ApplyAll, Steps, NextCkpt, After, Tidy;
    RestoreKeeps(d, v);
    var d1 := After(d, Restore(v));
    SaveThenLoad(d1, settings, state);
    assert Sound(d1) && Sound(d) by {
      TidyIsSound(d);
      TidyIsSound(d1);
    }
    StepsEffect(d1, Save(settings, state));
  }

  lemma TidyIsSound(d: Dir)
    requires Tidy(d)
    ensures Sound(d)
  {
  }

  lemma RestoreKeeps(d: Dir, v: nat)
    requires Tidy(d) && v in d.ckpts
    ensures var d' := After(d, Restore(v));
      && Tidy(d') && d'.current == Some(v)
      && d'.ckpts.Keys == d.ckpts.Keys
      && forall k :: k in d.ckpts ==> d'.ckpts[k].content == d.ckpts[k].content
  {
    CompletedIsTidy(d, Restore(v));
  }

  // ---------------------------------------------------------------- the class

  class FileStorage {
    var dir: Dir
    ghost var log: seq<Step>

    constructor ()
      ensures dir == NO_DIR && log == [] && Sound(dir)
    {
      dir, log := NO_DIR, [];
    }

    /** The file system. */
    method Call(s: Step)
      modifies this
      ensures dir == Apply(old(dir), s) && log == old(log) + [s]
    {
      dir := Apply(dir, s);
      log := log + [s];
    }

    method WriteJsonFile(to: Name, doc: string)
      modifies this
      ensures dir == Written(old(dir), to, doc) && log == old(log) + WriteJson(to, doc)
    {
      Call(OpenTemp);
      Call(WriteTemp(doc));
      Call(RenameTemp(to));
    }

    method SetCurrentCkpt(n: nat)
      requires n in dir.ckpts
      modifies this
      ensures dir == Selected(old(dir), n) && log == old(log) + SetCurrent(n)
    {
      Call(Unlink);
      Call(Link(n));
      Call(Touch(n));
    }

    /** Looks for the latest modification time among all checkpoints. */
    method GetNextCkptName() returns (n: nat)
      requires Sound(dir)
      ensures n == NextCkpt(dir.ckpts)
    {
      if dir.ckpts == map[] {
        return 0;
      }
      var rest := dir.ckpts.Keys;
      var best: nat :| best in rest;
      rest := rest - {best};
      while rest != {}
        invariant rest <= dir.ckpts.Keys && best in dir.ckpts
        invariant forall k :: k in dir.ckpts && k !in rest ==> dir.ckpts[k].mtime <= dir.ckpts[best].mtime
        decreases rest
      {
        var k: nat :| k in rest;
        if dir.ckpts[best].mtime < dir.ckpts[k].mtime {
          best := k;
        }
        rest := rest - {k};
      }
      LatestIsUnique(dir, best);
      return best + 1;
    }

    method WriteModelState(state: string, ckpt: Option<nat>) returns (failure: Option<Error>)
      modifies this
      ensures failure.None? ==>
        var n := if ckpt.Some? then ckpt.value else if old(dir).current.Some? then old(dir).current.value else 0;
        dir == Written(old(dir), Ckpt(n), state) && log == old(log) + WriteJson(Ckpt(n), state)
      ensures failure.Some? ==> failure == Some(NoState) && dir == old(dir) && log == old(log)
      ensures failure.Some? <==> ckpt.None? && old(dir).current.None?
    {
      if ckpt.Some? {
        WriteJsonFile(Ckpt(ckpt.value), state);
      } else if dir.current.Some? {
        WriteJsonFile(Ckpt(dir.current.value), state);
      } else {
        return Some(NoState);
      }
      return None;
    }

    method CreateModel(settings: string) returns (failure: Option<Error>)
      requires Sound(dir)
      modifies this
      ensures failure == if old(dir).present then Some(ModelExists) else None
      ensures if failure.Some? then dir == old(dir)
        else dir.present && Load(dir).0 == Some(Json(settings)) && dir.ckpts == old(dir).ckpts && dir.current == old(dir).current
      ensures var op := Create(settings);
        && failure == Failure(old(dir), op)
        && dir == After(old(dir), op) && log == old(log) + Steps(old(dir), op)
    {
      if dir.present {
        return Some(ModelExists);
      }
      Call(MakeDir);
      WriteJsonFile(Settings, settings);
      return None;
    }

    method SaveModel(settings: string, state: string, saveState: bool, saveCkpt: bool) returns (failure: Option<Error>)
      requires Sound(dir)
      modifies this
      ensures dir.present && Load(dir).0 == Some(Json(settings))
      ensures failure == if saveState && !saveCkpt && old(dir).current.None? then Some(NoState) else None
      ensures var op := if !saveState then Configure(settings) else if saveCkpt then Save(settings, state) else InPlace(settings, state);
        && failure == Failure(old(dir), op)
        && dir == After(old(dir), op) && log == old(log) + Steps(old(dir), op)
    {
      hide Latest, NextCkpt;
      Call(MakeDir);
      WriteJsonFile(Settings, settings);
      if saveState {
        if saveCkpt {
          ConfiguredIsSound(old(dir), settings);
          var n := GetNextCkptName();
          var _ := WriteModelState(state, Some(n));
          SetCurrentCkpt(n);
        } else {
          failure := WriteModelState(state, None);
          return;
        }
      }
      return None;
    }

    method SaveState(state: string) returns (failure: Option<Error>)
      requires Sound(dir)
      modifies this
      ensures failure == if old(dir).current.None? then Some(NoState) else None
      ensures var op := Update(state);
        && failure == Failure(old(dir), op)
        && dir == After(old(dir), op) && log == old(log) + Steps(old(dir), op)
    {
      failure := WriteModelState(state, None);
    }

    /** set_current_ckpt, after the server has looked the version up. */
    method RestoreVersion(n: nat) returns (failure: Option<Error>)
      requires Sound(dir)
      modifies this
      ensures failure == if n in old(dir).ckpts then None else Some(NoSuchVersion)
      ensures var op := Restore(n);
        && failure == Failure(old(dir), op)
        && dir == After(old(dir), op) && log == old(log) + Steps(old(dir), op)
    {
      if n !in dir.ckpts {
        return Some(NoSuchVersion);
      }
      SetCurrentCkpt(n);
      return None;
    }
  }

  lemma ConfiguredIsSound(d: Dir, settings: string)
    requires Sound(d)
    ensures Sound(Written(Made(d), Settings, settings))
  {
    EventIsSound(d, Event(Configure(settings), None));
    StepsEffect(d, Configure(settings));
  }
}
