/** Saving a stage's model settings: lock, read, validate, write, commit — and what other saves may do in
    between. What makes a set of rows valid is left open: any predicate at all. */
module SettingsLock {
  import opened Prelude

  type Rows = map<string, string>

  const PREFIX := "llm."

  /** `settings.load`: the rows under the prefix. */
  function Load(table: Rows): Rows { map key | key in table && PREFIX <= key :: table[key] }

  /** Set one row, or with no value delete it. */
  datatype Change = Change(key: string, value: Option<string>)

  function Put(table: Rows, change: Change): Rows {
    if change.value.None? then table - {change.key} else table[change.key := change.value.value]
  }

  function Applied(table: Rows, changes: seq<Change>): Rows {
    if changes == [] then table
    else Put(Applied(table, changes[..|changes| - 1]), changes[|changes| - 1])
  }

  lemma AppliedStep(table: Rows, changes: seq<Change>, k: nat)
    requires k < |changes|
    ensures Applied(table, changes[..k + 1]) == Put(Applied(table, changes[..k]), changes[k])
  {
    assert changes[..k + 1][..k] == changes[..k];
  }

  /** A field of the request: absent, present but blank, or a value. */
  datatype Field = Absent | Blank | Given(value: string)

  datatype Update = Update(stage: string, model: Field, effort: Field)

  function FieldChange(key: string, field: Field): seq<Change> {
    match field
    case Absent => []
    case Blank => [Change(key, None)]
    case Given(value) => [Change(key, Some(value))]
  }

  function Changes(update: Update): seq<Change> {
    FieldChange(PREFIX + "model." + update.stage, update.model)
    + FieldChange(PREFIX + "effort." + update.stage, update.effort)
  }

  // ---- What a save does to the rows ----

  /** Every change is under the prefix, and no two are to one row. */
  predicate Apart(changes: seq<Change>) {
    && (forall c | c in changes :: PREFIX <= c.key)
    && (forall i, j | 0 <= i < j < |changes| :: changes[i].key != changes[j].key)
  }

  lemma ChangesApart(update: Update)
    ensures Apart(Changes(update))
  {
    var model, effort := PREFIX + "model." + update.stage, PREFIX + "effort." + update.stage;
    assert model[4] == 'm' && effort[4] == 'e';
    assert PREFIX <= model && PREFIX <= effort;
  }

  /** Each changed row is as the change says, and every other row as it was. */
  lemma {:induction false} AppliedAt(table: Rows, changes: seq<Change>)
    requires Apart(changes)
    ensures forall c | c in changes ::
              if c.value.Some? then c.key in Applied(table, changes) && Applied(table, changes)[c.key] == c.value.value
              else c.key !in Applied(table, changes)
    ensures forall key | (forall c | c in changes :: c.key != key) ::
              if key in table then key in Applied(table, changes) && Applied(table, changes)[key] == table[key]
              else key !in Applied(table, changes)
  {
    if changes != [] {
      var most, last := changes[..|changes| - 1], changes[|changes| - 1];
      assert Apart(most);
      AppliedAt(table, most);
      assert forall c :: c in changes <==> c in most || c == last;
      forall c | c in most
        ensures c.key != last.key
      {
        var i :| 0 <= i < |most| && most[i] == c;
        assert changes[i] == c;
      }
    }
  }

  predicate SameRow(before: Rows, after: Rows, key: string) {
    if key in before then key in after && after[key] == before[key] else key !in after
  }

  /** What a field says of its row: absent, nothing; blank, that it goes; and a value, that it holds it. */
  predicate Says(field: Field, before: Rows, after: Rows, key: string) {
    match field
    case Absent => SameRow(before, after, key)
    case Blank => key !in after
    case Given(value) => key in after && after[key] == value
  }

  function ModelKey(stage: string): string { "llm.model." + stage }

  function EffortKey(stage: string): string { "llm.effort." + stage }

  /** A save does to its stage's two rows what its two fields say, and to no other row anything. */
  predicate Saved(update: Update, before: Rows, after: Rows) {
    && Says(update.model, before, after, ModelKey(update.stage))
    && Says(update.effort, before, after, EffortKey(update.stage))
    && forall key | key in before.Keys + after.Keys ::
         key == ModelKey(update.stage) || key == EffortKey(update.stage) || SameRow(before, after, key)
  }

  lemma FieldSaved(table: Rows, before: seq<Change>, key: string, field: Field)
    ensures var from := Applied(table, before);
            var to := Applied(table, before + FieldChange(key, field));
            Says(field, from, to, key) && forall other | other != key :: SameRow(from, to, other)
  {
    if field.Absent? {
      assert before + [] == before;
    } else {
      var changes := before + FieldChange(key, field);
      AppliedStep(table, changes, |before|);
      assert changes[..|before|] == before && changes[..|before| + 1] == changes;
    }
  }

  lemma TwoRows(update: Update)
    ensures Changes(update) == FieldChange(ModelKey(update.stage), update.model)
                               + FieldChange(EffortKey(update.stage), update.effort)
    ensures ModelKey(update.stage) != EffortKey(update.stage)
  {
    assert PREFIX + "model." + update.stage == ModelKey(update.stage);
    assert PREFIX + "effort." + update.stage == EffortKey(update.stage);
    assert ModelKey(update.stage)[4] == 'm' && EffortKey(update.stage)[4] == 'e';
  }

  lemma FieldsSaved(table: Rows, a: string, first: Field, b: string, second: Field)
    requires a != b
    ensures var after := Applied(table, FieldChange(a, first) + FieldChange(b, second));
            && Says(first, table, after, a) && Says(second, table, after, b)
            && forall key | key != a && key != b :: SameRow(table, after, key)
  {
    FieldSaved(table, [], a, first);
    assert [] + FieldChange(a, first) == FieldChange(a, first);
    var middle := Applied(table, FieldChange(a, first));
    var after := Applied(table, FieldChange(a, first) + FieldChange(b, second));
    FieldSaved(table, FieldChange(a, first), b, second);
    assert SameRow(table, middle, b) && SameRow(middle, after, a);
    forall key | key != a && key != b
      ensures SameRow(table, after, key)
    {
      assert SameRow(table, middle, key) && SameRow(middle, after, key);
    }
  }

  lemma SavesWhatItSays(update: Update, table: Rows)
    ensures Saved(update, table, Applied(table, Changes(update)))
  {
    TwoRows(update);
    FieldsSaved(table, ModelKey(update.stage), update.model, EffortKey(update.stage), update.effort);
  }

  /** Only rows under the prefix are read, and all of them. */
  lemma LoadIs(table: Rows, key: string)
    ensures key in Load(table) <==> key in table && |key| >= 4 && key[..4] == "llm."
    ensures key in Load(table) ==> Load(table)[key] == table[key]
  {
  }

  /** Reading back what was written is applying the changes to what was read. */
  lemma {:induction false} LoadApplied(table: Rows, changes: seq<Change>)
    requires forall c | c in changes :: PREFIX <= c.key
    ensures Load(Applied(table, changes)) == Applied(Load(table), changes)
  {
    if changes != [] {
      LoadApplied(table, changes[..|changes| - 1]);
    }
  }

  datatype Refusal = ReadOnly | Invalid

  /** One save, as a request sees it while it holds the lock. */
  class Connection {
    var table: Rows

    constructor (table: Rows)
      ensures this.table == table
    {
      this.table := table;
    }

    /** `apply_update`: all of the changes or, refused, none; and what was validated is what is stored. */
    method ApplyUpdate(update: Update, writable: bool, valid: Rows -> bool) returns (r: Result<Rows, Refusal>)
      modifies this
      ensures r == Err(ReadOnly) <==> !writable
      ensures r == Err(Invalid) <==> writable && !valid(Applied(Load(old(table)), Changes(update)))
      ensures r.Err? ==> table == old(table)
      ensures r.Ok? ==> table == Applied(old(table), Changes(update)) && r.value == Load(table) && valid(r.value)
      ensures r.Ok? ==> Saved(update, old(table), table)
    {
      if !writable {
        return Err(ReadOnly);
      }
      var changes := Changes(update);
      var candidate := Load(table);
      for k := 0 to |changes|
        invariant table == old(table) && candidate == Applied(Load(table), changes[..k])
      {
        AppliedStep(Load(table), changes, k);
        if changes[k].value.None? {
          candidate := candidate - {changes[k].key};
        } else {
          candidate := candidate[changes[k].key := changes[k].value.value];
        }
      }
      assert changes[..|changes|] == changes;
      if !valid(candidate) {
        return Err(Invalid);
      }
      for k := 0 to |changes|
        invariant table == Applied(old(table), changes[..k])
      {
        AppliedStep(old(table), changes, k);
        table := Put(table, changes[k]);
      }
      ChangesApart(update);
      LoadApplied(old(table), changes);
      SavesWhatItSays(update, old(table));
      return Ok(candidate);
    }
  }

  // ---- Saves in any interleaving ----

  /** Where one save has got to. Its writes are seen by nobody else until it commits. */
  datatype Phase =
    | Waiting
    | Holding
    | HasRead(current: Rows)
    | Writing(current: Rows, written: nat)
    | Gone

  datatype Client = Client(update: Update, phase: Phase)

  datatype World = World(table: Rows, holder: Option<nat>, clients: map<nat, Client>)

  datatype Step =
    | Arrive(id: nat, update: Update)
    | Lock(id: nat)
    | Read(id: nat)
    | Validate(id: nat)
    | Write(id: nat)
    | Commit(id: nat)
    | Abort(id: nat)          // any other failure of the request: its transaction is rolled back

  /** A deployment: whether settings may be written, whether the table is locked first, and what is valid. */
  datatype Deployment = Deployment(writable: bool, locking: bool, valid: Rows -> bool)

  predicate Active(phase: Phase) { phase.Holding? || phase.HasRead? || phase.Writing? }

  predicate Enabled(d: Deployment, w: World, s: Step) {
    if s.Arrive? then s.id !in w.clients
    else
      s.id in w.clients &&
      var c := w.clients[s.id];
      match s
      case Lock(_) => c.phase.Waiting? && d.writable && (d.locking ==> w.holder.None?)
      case Read(_) => c.phase.Holding?
      case Validate(_) => c.phase.HasRead?
      case Write(_) => c.phase.Writing? && c.phase.written < |Changes(c.update)|
      case Commit(_) => c.phase.Writing? && c.phase.written == |Changes(c.update)|
      case Abort(_) => c.phase.Waiting? || Active(c.phase)
  }

  function Moved(w: World, id: nat, phase: Phase): World
    requires id in w.clients
  {
    w.(clients := w.clients[id := w.clients[id].(phase := phase)])
  }

  /** A request that ends gives back the lock if it holds it. */
  function Ended(w: World, id: nat): World
    requires id in w.clients
  {
    Moved(w, id, Gone).(holder := if w.holder == Some(id) then None else w.holder)
  }

  function Next(d: Deployment, w: World, s: Step): World
    requires Enabled(d, w, s)
  {
    match s
    case Arrive(id, update) => w.(clients := w.clients[id := Client(update, Waiting)])
    case Lock(id) => Moved(w, id, Holding).(holder := Some(id))
    case Read(id) => Moved(w, id, HasRead(Load(w.table)))
    case Validate(id) =>
      var current := w.clients[id].phase.current;
      if d.valid(Applied(current, Changes(w.clients[id].update)))
      then Moved(w, id, Writing(current, 0)) else Ended(w, id)
    case Write(id) =>
      var phase := w.clients[id].phase;
      Moved(w, id, phase.(written := phase.written + 1))
    case Commit(id) => Ended(w, id).(table := Applied(w.table, Changes(w.clients[id].update)))
    case Abort(id) => Ended(w, id)
  }

  predicate Legal(d: Deployment, w: World, steps: seq<Step>)
    decreases |steps|
  {
    steps == [] || (Enabled(d, w, steps[0]) && Legal(d, Next(d, w, steps[0]), steps[1..]))
  }

  function Run(d: Deployment, w: World, steps: seq<Step>): World
    requires Legal(d, w, steps)
    decreases |steps|
  {
    if steps == [] then w else Run(d, Next(d, w, steps[0]), steps[1..])
  }

  /** Who is active holds the lock; what it has read is what the table still says; and what it is writing
      it has found valid. */
  predicate Sound(d: Deployment, w: World, id: nat)
    requires id in w.clients
  {
    var c := w.clients[id];
    && (Active(c.phase) ==> d.writable && w.holder == Some(id))
    && (c.phase.HasRead? || c.phase.Writing? ==> c.phase.current == Load(w.table))
    && (c.phase.Writing? ==> d.valid(Applied(c.phase.current, Changes(c.update))))
  }

  ghost predicate Inv(d: Deployment, w: World) {
    forall id | id in w.clients :: Sound(d, w, id)
  }

  /** A commit stores exactly what its save validated, over a table nobody has changed since, and leaves it
      valid whatever it was before. */
  lemma CommitsWhatItValidated(d: Deployment, w: World, id: nat)
    requires d.locking && Inv(d, w) && Enabled(d, w, Commit(id))
    ensures var after := Next(d, w, Commit(id)).table;
            && after == Applied(w.table, Changes(w.clients[id].update))
            && Load(after) == Applied(w.clients[id].phase.current, Changes(w.clients[id].update))
            && d.valid(Load(after))
  {
    assert Sound(d, w, id);
    ChangesApart(w.clients[id].update);
    LoadApplied(w.table, Changes(w.clients[id].update));
  }

  /** Every step of every save keeps what saves rely on, and either leaves the committed table alone or
      leaves it valid. */
  lemma StepKeeps(d: Deployment, w: World, s: Step)
    requires d.locking && Inv(d, w) && Enabled(d, w, s)
    ensures Inv(d, Next(d, w, s))
    ensures Next(d, w, s).table == w.table || d.valid(Load(Next(d, w, s).table))
  {
    var next := Next(d, w, s);
    if s.Commit? {
      CommitsWhatItValidated(d, w, s.id);
    }
    forall id | id in next.clients
      ensures Sound(d, next, id)
    {
      assert id != s.id ==> Sound(d, w, id);
      assert s.id in w.clients ==> Sound(d, w, s.id);
    }
  }

  /** Over every interleaving of any number of saves, from any table, valid or not: the committed rows are
      untouched, or valid. */
  lemma {:induction false} ChangedIsValid(d: Deployment, w: World, steps: seq<Step>)
    requires d.locking && Inv(d, w) && Legal(d, w, steps)
    ensures Inv(d, Run(d, w, steps))
    ensures Run(d, w, steps).table == w.table || d.valid(Load(Run(d, w, steps).table))
    decreases |steps|
  {
    if steps != [] {
      StepKeeps(d, w, steps[0]);
      ChangedIsValid(d, Next(d, w, steps[0]), steps[1..]);
    }
  }

  lemma {:induction false} LegalSplit(d: Deployment, w: World, first: seq<Step>, rest: seq<Step>)
    requires Legal(d, w, first) && Legal(d, Run(d, w, first), rest)
    ensures Legal(d, w, first + rest) && Run(d, w, first + rest) == Run(d, Run(d, w, first), rest)
    decreases |first|
  {
    if first == [] {
      assert first + rest == rest;
    } else {
      assert (first + rest)[1..] == first[1..] + rest;
      LegalSplit(d, Next(d, w, first[0]), first[1..], rest);
    }
  }

  lemma {:induction false} LegalPrefix(d: Deployment, w: World, steps: seq<Step>, n: nat)
    requires n <= |steps| && Legal(d, w, steps)
    ensures Legal(d, w, steps[..n]) && Legal(d, Run(d, w, steps[..n]), steps[n..])
    decreases n
  {
    if n > 0 {
      LegalPrefix(d, Next(d, w, steps[0]), steps[1..], n - 1);
      assert steps[..n][1..] == steps[1..][..n - 1] && steps[1..][n - 1..] == steps[n..];
    }
  }

  /** So rows once valid are valid at every later moment: from a deployment nobody is saving in, and whatever
      was stored there, wherever a run has reached valid rows it keeps them valid. */
  lemma ValidForever(d: Deployment, table: Rows, steps: seq<Step>, n: nat)
    requires d.locking && n <= |steps| && Legal(d, World(table, None, map[]), steps)
    ensures Legal(d, World(table, None, map[]), steps[..n])
    ensures d.valid(Load(Run(d, World(table, None, map[]), steps[..n]).table)) ==>
              d.valid(Load(Run(d, World(table, None, map[]), steps).table))
  {
    var start := World(table, None, map[]);
    LegalPrefix(d, start, steps, n);
    ChangedIsValid(d, start, steps[..n]);
    ChangedIsValid(d, Run(d, start, steps[..n]), steps[n..]);
    LegalSplit(d, start, steps[..n], steps[n..]);
    assert steps[..n] + steps[n..] == steps;
  }

  /** Where settings are not writable no run changes a row, valid or not, locked or not. */
  lemma {:induction false} ReadOnlyStands(d: Deployment, w: World, steps: seq<Step>)
    requires !d.writable && Legal(d, w, steps)
    requires forall id | id in w.clients :: !Active(w.clients[id].phase)
    ensures Run(d, w, steps).table == w.table
    decreases |steps|
  {
    if steps != [] {
      ReadOnlyStands(d, Next(d, w, steps[0]), steps[1..]);
    }
  }

  // ---- Why there is a lock ----

  const MODEL := "llm.model.script"
  const EFFORT := "llm.effort.script"

  /** A catalogue in which the small model does not take the high effort. */
  predicate Pairing(rows: Rows) {
    !(MODEL in rows && rows[MODEL] == "small" && EFFORT in rows && rows[EFFORT] == "high")
  }

  const CHOOSE_MODEL := Update("script", Given("small"), Absent)
  const CHOOSE_EFFORT := Update("script", Absent, Given("high"))

  const UNLOCKED := Deployment(true, false, Pairing)
  const NOBODY := World(map[], None, map[])

  /** Both saves lock, read, validate and write before either commits. */
  const RACE := [Arrive(1, CHOOSE_MODEL), Arrive(2, CHOOSE_EFFORT), Lock(1), Lock(2), Read(1), Read(2),
                 Validate(1), Validate(2), Write(1), Write(2), Commit(1), Commit(2)]

  lemma TwoSteps(d: Deployment, w: World, a: Step, b: Step)
    requires Enabled(d, w, a) && Enabled(d, Next(d, w, a), b)
    ensures Legal(d, w, [a, b]) && Run(d, w, [a, b]) == Next(d, Next(d, w, a), b)
  {
    assert [a, b][1..] == [b] && [b][1..] == [];
    assert Legal(d, Next(d, w, a), [b]);
    assert Run(d, Next(d, w, a), [b]) == Next(d, Next(d, w, a), b);
  }

  /** Both saves, having got to the same phase. */
  function Both(phase: Phase): World {
    World(map[], if Active(phase) then Some(2) else None,
          map[1 := Client(CHOOSE_MODEL, phase), 2 := Client(CHOOSE_EFFORT, phase)])
  }

  lemma RaceArrives()
    ensures Legal(UNLOCKED, NOBODY, RACE[..6]) && Run(UNLOCKED, NOBODY, RACE[..6]) == Both(HasRead(map[]))
  {
    assert Load(map[]) == map[];
    TwoSteps(UNLOCKED, NOBODY, RACE[0], RACE[1]);
    assert Run(UNLOCKED, NOBODY, [RACE[0], RACE[1]]) == Both(Waiting);
    TwoSteps(UNLOCKED, Both(Waiting), RACE[2], RACE[3]);
    assert Run(UNLOCKED, Both(Waiting), [RACE[2], RACE[3]]) == Both(Holding);
    TwoSteps(UNLOCKED, Both(Holding), RACE[4], RACE[5]);
    assert Run(UNLOCKED, Both(Holding), [RACE[4], RACE[5]]) == Both(HasRead(map[]));
    LegalSplit(UNLOCKED, NOBODY, [RACE[0], RACE[1]], [RACE[2], RACE[3]]);
    LegalSplit(UNLOCKED, NOBODY, [RACE[0], RACE[1]] + [RACE[2], RACE[3]], [RACE[4], RACE[5]]);
    assert [RACE[0], RACE[1]] + [RACE[2], RACE[3]] + [RACE[4], RACE[5]] == RACE[..6];
  }

  /** Each of the two saves is valid alone. */
  lemma EachIsValidAlone()
    ensures Changes(CHOOSE_MODEL) == [Change(MODEL, Some("small"))]
    ensures Changes(CHOOSE_EFFORT) == [Change(EFFORT, Some("high"))]
    ensures Pairing(Applied(map[], Changes(CHOOSE_MODEL))) && Pairing(Applied(map[], Changes(CHOOSE_EFFORT)))
  {
    assert PREFIX + "model." + "script" == MODEL && PREFIX + "effort." + "script" == EFFORT;
    AppliedAt(map[], [Change(MODEL, Some("small"))]);
    AppliedAt(map[], [Change(EFFORT, Some("high"))]);
    assert MODEL[4] != EFFORT[4];
  }

  lemma TogetherTheyAreNot()
    ensures !Pairing(Load(Applied(Applied(map[], Changes(CHOOSE_MODEL)), Changes(CHOOSE_EFFORT))))
  {
    EachIsValidAlone();
    var model, effort := Change(MODEL, Some("small")), Change(EFFORT, Some("high"));
    AppliedAt(map[], [model]);
    AppliedAt(Applied(map[], [model]), [effort]);
    assert MODEL[4] != EFFORT[4];
    assert model in [model] && effort in [effort];
  }

  lemma RaceCommits()
    ensures Legal(UNLOCKED, Both(HasRead(map[])), RACE[6..])
    ensures !Pairing(Load(Run(UNLOCKED, Both(HasRead(map[])), RACE[6..]).table))
  {
    EachIsValidAlone();
    TwoSteps(UNLOCKED, Both(HasRead(map[])), RACE[6], RACE[7]);
    assert Run(UNLOCKED, Both(HasRead(map[])), [RACE[6], RACE[7]]) == Both(Writing(map[], 0));
    TwoSteps(UNLOCKED, Both(Writing(map[], 0)), RACE[8], RACE[9]);
    assert Run(UNLOCKED, Both(Writing(map[], 0)), [RACE[8], RACE[9]]) == Both(Writing(map[], 1));
    TwoSteps(UNLOCKED, Both(Writing(map[], 1)), RACE[10], RACE[11]);
    TogetherTheyAreNot();
    LegalSplit(UNLOCKED, Both(HasRead(map[])), [RACE[6], RACE[7]], [RACE[8], RACE[9]]);
    LegalSplit(UNLOCKED, Both(HasRead(map[])), [RACE[6], RACE[7]] + [RACE[8], RACE[9]], [RACE[10], RACE[11]]);
    assert [RACE[6], RACE[7]] + [RACE[8], RACE[9]] + [RACE[10], RACE[11]] == RACE[6..];
  }

  /** Without the lock, two saves each valid alone can together store a pairing that is not. */
  lemma WithoutTheLock()
    ensures Pairing(Applied(map[], Changes(CHOOSE_MODEL))) && Pairing(Applied(map[], Changes(CHOOSE_EFFORT)))
    ensures Legal(UNLOCKED, NOBODY, RACE) && !Pairing(Load(Run(UNLOCKED, NOBODY, RACE).table))
  {
    EachIsValidAlone();
    RaceArrives();
    RaceCommits();
    LegalSplit(UNLOCKED, NOBODY, RACE[..6], RACE[6..]);
    assert RACE[..6] + RACE[6..] == RACE;
  }
}
