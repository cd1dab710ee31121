/** The web app's episode list under overlapping refreshes, position reports and new episodes. */
module EpisodeMerge {
  import opened Prelude

  /** One episode as the list shows it: its id, how far it has been listened to, and the rest. */
  datatype Episode = Episode(id: string, position: nat, body: string)

  predicate UniqueIds(list: seq<Episode>) {
    forall i, j | 0 <= i < j < |list| :: list[i].id != list[j].id
  }

  predicate Has(list: seq<Episode>, id: string) { exists e :: e in list && e.id == id }

  /** How far the list says an episode has been listened to. */
  function PositionIn(list: seq<Episode>, id: string): nat {
    if list == [] then 0 else if list[0].id == id then list[0].position else PositionIn(list[1..], id)
  }

  /** `current.filter((entry) => !known.has(entry.id))`. */
  function Unknown(current: seq<Episode>, list: seq<Episode>): seq<Episode> {
    if current == [] then []
    else (if Has(list, current[0].id) then [] else [current[0]]) + Unknown(current[1..], list)
  }

  function Newest(current: seq<Episode>, e: Episode): Episode {
    if Has(current, e.id) && PositionIn(current, e.id) > e.position
    then e.(position := PositionIn(current, e.id)) else e
  }

  function Refreshed(current: seq<Episode>, list: seq<Episode>): seq<Episode> {
    if list == [] then [] else [Newest(current, list[0])] + Refreshed(current, list[1..])
  }

  /** What a refresh's answer makes of the list. */
  function Merge(current: seq<Episode>, list: seq<Episode>): seq<Episode> {
    Unknown(current, list) + Refreshed(current, list)
  }

  function Without(list: seq<Episode>, id: string): seq<Episode> {
    if list == [] then [] else (if list[0].id == id then [] else [list[0]]) + Without(list[1..], id)
  }

  /** `openEpisode`: in front, and de-duplicated. */
  function Opened(list: seq<Episode>, next: Episode): seq<Episode> { [next] + Without(list, next.id) }

  /** `positionReported`: never downwards. */
  function Reported(list: seq<Episode>, id: string, position: nat): seq<Episode> {
    if list == [] then []
    else
      var e := list[0];
      [if e.id == id && position > e.position then e.(position := position) else e] + Reported(list[1..], id, position)
  }

  // ---- What each update keeps ----

  lemma {:induction false} PositionOf(list: seq<Episode>, e: Episode)
    requires UniqueIds(list) && e in list
    ensures PositionIn(list, e.id) == e.position
  {
    if list[0] != e {
      var i :| 0 <= i < |list| && list[i] == e;
      assert list[0].id != list[i].id;
      PositionOf(list[1..], e);
    }
  }

  lemma {:induction false} UnknownAre(current: seq<Episode>, list: seq<Episode>)
    ensures forall e :: e in Unknown(current, list) <==> e in current && !Has(list, e.id)
    ensures UniqueIds(current) ==> UniqueIds(Unknown(current, list))
  {
    if current != [] {
      UnknownAre(current[1..], list);
      var rest := Unknown(current[1..], list);
      assert forall e :: e in current <==> e == current[0] || e in current[1..];
      if UniqueIds(current) {
        forall e | e in rest
          ensures e.id != current[0].id
        {
          var i :| 0 <= i < |current[1..]| && current[1..][i] == e;
          assert current[0].id != current[i + 1].id;
        }
      }
    }
  }

  lemma {:induction false} RefreshedAt(current: seq<Episode>, list: seq<Episode>)
    ensures |Refreshed(current, list)| == |list|
    ensures forall i | 0 <= i < |list| :: Refreshed(current, list)[i] == Newest(current, list[i])
  {
    if list != [] {
      RefreshedAt(current, list[1..]);
    }
  }

  lemma HasAppend(a: seq<Episode>, b: seq<Episode>, id: string)
    ensures Has(a + b, id) <==> Has(a, id) || Has(b, id)
  {
    assert forall e :: e in a + b <==> e in a || e in b;
  }

  lemma RefreshedHas(current: seq<Episode>, list: seq<Episode>, id: string)
    ensures Has(Refreshed(current, list), id) <==> Has(list, id)
  {
    RefreshedAt(current, list);
    if Has(list, id) {
      var i :| 0 <= i < |list| && list[i].id == id;
      assert Refreshed(current, list)[i] in Refreshed(current, list);
    }
    if Has(Refreshed(current, list), id) {
      var i :| 0 <= i < |list| && Refreshed(current, list)[i].id == id;
      assert list[i] in list;
    }
  }

  /** A merge keeps ids unique, and shows exactly the ids that either list has. */
  lemma MergeIds(current: seq<Episode>, list: seq<Episode>)
    requires UniqueIds(current) && UniqueIds(list)
    ensures UniqueIds(Merge(current, list))
    ensures forall id :: Has(Merge(current, list), id) <==> Has(current, id) || Has(list, id)
  {
    UnknownAre(current, list);
    RefreshedAt(current, list);
    var kept, renewed := Unknown(current, list), Refreshed(current, list);
    assert UniqueIds(renewed);
    forall i, j | 0 <= i < |kept| && 0 <= j < |renewed|
      ensures kept[i].id != renewed[j].id
    {
      assert kept[i] in kept && list[j] in list;
    }
    forall id
      ensures Has(Merge(current, list), id) <==> Has(current, id) || Has(list, id)
    {
      HasAppend(kept, renewed, id);
      RefreshedHas(current, list, id);
      if Has(current, id) && !Has(list, id) {
        var e :| e in current && e.id == id;
        assert e in kept;
      }
    }
  }

  function Larger(a: nat, b: nat): nat { if a > b then a else b }

  /** Every merged entry is where the further of the two copies is. */
  lemma MergePositions(current: seq<Episode>, list: seq<Episode>, id: string)
    requires UniqueIds(current) && UniqueIds(list)
    requires Has(current, id) || Has(list, id)
    ensures PositionIn(Merge(current, list), id) == Larger(PositionIn(current, id), PositionIn(list, id))
  {
    if Has(list, id) {
      ListedPosition(current, list, id);
    } else {
      KeptPosition(current, list, id);
    }
  }

  /** A merge is, in front, what only the page knew, as it was; then the server's list in its own order,
      each entry the server's but for a position the page has further on. */
  lemma MergeEntries(current: seq<Episode>, list: seq<Episode>)
    requires UniqueIds(current) && UniqueIds(list)
    ensures var merged := Merge(current, list); var n := |merged| - |list|;
            && n >= 0 && (forall e :: e in merged[..n] <==> e in current && !Has(list, e.id))
            && forall i | 0 <= i < |list| ::
                 merged[n + i] == list[i].(position := Larger(PositionIn(current, list[i].id), list[i].position))
  {
    UnknownAre(current, list);
    RefreshedAt(current, list);
    var n := |Unknown(current, list)|;
    assert Merge(current, list)[..n] == Unknown(current, list);
    forall i | 0 <= i < |list|
      ensures Newest(current, list[i])
           == list[i].(position := Larger(PositionIn(current, list[i].id), list[i].position))
    {
      if !Has(current, list[i].id) {
        NoneIsZero(current, list[i].id);
      }
    }
  }

  lemma ListedPosition(current: seq<Episode>, list: seq<Episode>, id: string)
    requires UniqueIds(current) && UniqueIds(list) && Has(list, id)
    ensures PositionIn(Merge(current, list), id) == Larger(PositionIn(current, id), PositionIn(list, id))
  {
    MergeIds(current, list);
    var i :| 0 <= i < |list| && list[i].id == id;
    PositionOf(list, list[i]);
    if !Has(current, id) {
      NoneIsZero(current, id);
    }
    var merged := Newest(current, list[i]);
    assert merged in Merge(current, list) by {
      RefreshedAt(current, list);
      assert merged == Refreshed(current, list)[i];
    }
    PositionOf(Merge(current, list), merged);
  }

  lemma KeptPosition(current: seq<Episode>, list: seq<Episode>, id: string)
    requires UniqueIds(current) && UniqueIds(list) && Has(current, id) && !Has(list, id)
    ensures PositionIn(Merge(current, list), id) == Larger(PositionIn(current, id), PositionIn(list, id))
  {
    MergeIds(current, list);
    var e :| e in current && e.id == id;
    assert e in Merge(current, list) by {
      UnknownAre(current, list);
    }
    PositionOf(Merge(current, list), e);
    PositionOf(current, e);
    NoneIsZero(list, id);
  }

  lemma {:induction false} NoneIsZero(list: seq<Episode>, id: string)
    requires !Has(list, id)
    ensures PositionIn(list, id) == 0
  {
    if list != [] {
      assert list[0] in list && forall e | e in list[1..] :: e in list;
      NoneIsZero(list[1..], id);
    }
  }

  lemma {:induction false} WithoutIs(list: seq<Episode>, id: string)
    requires UniqueIds(list)
    ensures UniqueIds(Without(list, id)) && forall e :: e in Without(list, id) <==> e in list && e.id != id
  {
    if list != [] {
      WithoutIs(list[1..], id);
      assert forall e :: e in list <==> e == list[0] || e in list[1..];
      forall e | e in Without(list[1..], id)
        ensures e.id != list[0].id
      {
        var i :| 0 <= i < |list[1..]| && list[1..][i] == e;
        assert list[0].id != list[i + 1].id;
      }
    }
  }

  lemma OpenedIs(list: seq<Episode>, next: Episode, id: string)
    requires UniqueIds(list)
    ensures UniqueIds(Opened(list, next))
    ensures Has(Opened(list, next), id) <==> id == next.id || Has(list, id)
    ensures PositionIn(Opened(list, next), id) == if id == next.id then next.position else PositionIn(list, id)
  {
    WithoutIs(list, next.id);
    var rest := Without(list, next.id);
    forall e | e in rest
      ensures e.id != next.id
    {
    }
    HasAppend([next], rest, id);
    if id != next.id {
      if Has(list, id) {
        var e :| e in list && e.id == id;
        assert e in rest && e in Opened(list, next);
        PositionOf(Opened(list, next), e);
        PositionOf(list, e);
      } else {
        NoneIsZero(list, id);
        NoneIsZero(Opened(list, next), id);
      }
    }
  }

  /** A new episode is shown in front, and the others behind it in the order they were shown in. */
  lemma OthersInOrder(a: seq<Episode>, b: seq<Episode>, id: string)
    ensures Without(a + b, id) == Without(a, id) + Without(b, id)
  {
    var kept := (e: Episode) => if e.id == id then [] else [e];
    forall first, others
      ensures Without([first] + others, id) == kept(first) + Without(others, id)
    {
      assert ([first] + others)[1..] == others;
    }
    ReadFirstInOrder(list => Without(list, id), kept, a, b);
  }

  lemma OpenedInFront(a: seq<Episode>, e: Episode, b: seq<Episode>, next: Episode)
    ensures Opened(a + [e] + b, next)[0] == next
    ensures Opened(a + [e] + b, next)[1..]
         == Opened(a, next)[1..] + (if e.id == next.id then [] else [e]) + Opened(b, next)[1..]
  {
    OthersInOrder(a + [e], b, next.id);
    OthersInOrder(a, [e], next.id);
    assert [e][1..] == [];
  }

  /** What only the page knows stays in the order it was shown in. */
  lemma UnknownInOrder(a: seq<Episode>, b: seq<Episode>, list: seq<Episode>)
    ensures Unknown(a + b, list) == Unknown(a, list) + Unknown(b, list)
  {
    var kept := (e: Episode) => if Has(list, e.id) then [] else [e];
    forall first, others
      ensures Unknown([first] + others, list) == kept(first) + Unknown(others, list)
    {
      assert ([first] + others)[1..] == others;
    }
    ReadFirstInOrder(current => Unknown(current, list), kept, a, b);
  }

  lemma {:induction false} ReportedIs(list: seq<Episode>, id: string, position: nat)
    ensures |Reported(list, id, position)| == |list|
    ensures forall i | 0 <= i < |list| ::
              Reported(list, id, position)[i]
              == if list[i].id == id then list[i].(position := Larger(list[i].position, position)) else list[i]
    ensures forall other | Has(list, other) ::
              PositionIn(Reported(list, id, position), other)
              == if other == id then Larger(PositionIn(list, other), position) else PositionIn(list, other)
  {
    if list != [] {
      ReportedIs(list[1..], id, position);
      forall other | Has(list, other) && list[0].id != other
        ensures Has(list[1..], other)
      {
        var e :| e in list && e.id == other;
        assert e in list[1..];
      }
    }
  }

  // ---- Runs ----

  /** The server's positions, the answers still on their way, and what the page shows. */
  datatype World = World(server: map<string, nat>, inFlight: set<seq<Episode>>, shown: seq<Episode>)

  datatype Step =
    | Created(id: string)                          // an episode is made on the server
    | Listened(id: string, position: nat)          // the server's copy moves, never down
    | Asked(list: seq<Episode>)                    // a refresh reads the server; its answer is on its way
    | Answered(list: seq<Episode>)                 // any answer still on its way arrives
    | Confirmed(id: string, position: nat)         // the server has confirmed a position report
    | Made(next: Episode)                          // the page opens an episode it has just made

  /** A list the server could have answered at this moment. */
  predicate Snapshot(server: map<string, nat>, list: seq<Episode>) {
    UniqueIds(list) && forall e | e in list :: e.id in server && e.position == server[e.id]
  }

  predicate Enabled(w: World, s: Step) {
    match s
    case Created(id) => id !in w.server
    case Listened(id, position) => id in w.server && position >= w.server[id]
    case Asked(list) => Snapshot(w.server, list)
    case Answered(list) => list in w.inFlight
    case Confirmed(id, position) => id in w.server && position <= w.server[id]
    case Made(next) => next.id in w.server && next.position <= w.server[next.id]
  }

  function Next(w: World, s: Step): World {
    match s
    case Created(id) => w.(server := w.server[id := 0])
    case Listened(id, position) => w.(server := w.server[id := position])
    case Asked(list) => w.(inFlight := w.inFlight + {list})
    case Answered(list) => w.(shown := Merge(w.shown, list), inFlight := w.inFlight - {list})
    case Confirmed(id, position) => w.(shown := Reported(w.shown, id, position))
    case Made(next) => w.(shown := Opened(w.shown, next))
  }

  /** Nothing shown or on its way is ahead of the server. */
  predicate Behind(server: map<string, nat>, list: seq<Episode>) {
    UniqueIds(list) && forall e | e in list :: e.id in server && e.position <= server[e.id]
  }

  ghost predicate Inv(w: World) {
    Behind(w.server, w.shown) && forall list | list in w.inFlight :: Behind(w.server, list)
  }

  lemma BehindByPosition(server: map<string, nat>, list: seq<Episode>)
    requires UniqueIds(list)
    requires forall id | Has(list, id) :: id in server && PositionIn(list, id) <= server[id]
    ensures Behind(server, list)
  {
    forall e | e in list
      ensures e.id in server && e.position <= server[e.id]
    {
      PositionOf(list, e);
      assert Has(list, e.id);
    }
  }

  lemma PositionBehind(server: map<string, nat>, list: seq<Episode>, id: string)
    requires Behind(server, list) && Has(list, id)
    ensures id in server && PositionIn(list, id) <= server[id]
  {
    var e :| e in list && e.id == id;
    PositionOf(list, e);
  }

  lemma MergeBehind(server: map<string, nat>, current: seq<Episode>, list: seq<Episode>)
    requires Behind(server, current) && Behind(server, list)
    ensures Behind(server, Merge(current, list))
  {
    MergeIds(current, list);
    forall id | Has(Merge(current, list), id)
      ensures id in server && PositionIn(Merge(current, list), id) <= server[id]
    {
      MergePositions(current, list, id);
      if Has(current, id) {
        PositionBehind(server, current, id);
      } else {
        NoneIsZero(current, id);
      }
      if Has(list, id) {
        PositionBehind(server, list, id);
      } else {
        NoneIsZero(list, id);
      }
    }
    BehindByPosition(server, Merge(current, list));
  }

  lemma ReportedBehind(server: map<string, nat>, list: seq<Episode>, id: string, position: nat)
    requires Behind(server, list) && id in server && position <= server[id]
    ensures Behind(server, Reported(list, id, position))
  {
    ReportedIs(list, id, position);
    var after := Reported(list, id, position);
    forall other | Has(after, other)
      ensures other in server && PositionIn(after, other) <= server[other]
    {
      var i :| 0 <= i < |after| && after[i].id == other;
      assert list[i] in list && Has(list, other);
      PositionBehind(server, list, other);
    }
    BehindByPosition(server, after);
  }

  lemma OpenedBehind(server: map<string, nat>, list: seq<Episode>, next: Episode)
    requires Behind(server, list) && next.id in server && next.position <= server[next.id]
    ensures Behind(server, Opened(list, next))
  {
    WithoutIs(list, next.id);
    OpenedIs(list, next, next.id);
  }

  lemma StepKeeps(w: World, s: Step)
    requires Inv(w) && Enabled(w, s)
    ensures Inv(Next(w, s))
  {
    match s
    case Created(_) =>
    case Listened(_, _) =>
    case Asked(_) =>
    case Answered(list) => MergeBehind(w.server, w.shown, list);
    case Confirmed(id, position) => ReportedBehind(w.server, w.shown, id, position);
    case Made(next) => OpenedBehind(w.server, w.shown, next);
  }

  /** The one step that can take a position back: opening, as new, an episode the list already shows
      further on. The page only opens ids the list has never seen. */
  predicate TakesBack(w: World, s: Step) {
    s.Made? && Has(w.shown, s.next.id) && s.next.position < PositionIn(w.shown, s.next.id)
  }

  /** No step loses an id, and a step takes some shown position back exactly when it is that one. */
  lemma StepIsMonotone(w: World, s: Step)
    requires Inv(w) && Enabled(w, s)
    ensures forall id | Has(w.shown, id) :: Has(Next(w, s).shown, id)
    ensures (forall id | Has(w.shown, id) :: PositionIn(Next(w, s).shown, id) >= PositionIn(w.shown, id))
            <==> !TakesBack(w, s)
  {
    match s
    case Answered(list) =>
      MergeIds(w.shown, list);
      forall id | Has(w.shown, id)
        ensures PositionIn(Next(w, s).shown, id) >= PositionIn(w.shown, id)
      {
        MergePositions(w.shown, list, id);
      }
    case Confirmed(id, position) =>
      ReportedIs(w.shown, id, position);
      forall other | Has(w.shown, other)
        ensures Has(Reported(w.shown, id, position), other)
      {
        var i :| 0 <= i < |w.shown| && w.shown[i].id == other;
        assert Reported(w.shown, id, position)[i] in Reported(w.shown, id, position);
      }
    case Made(next) =>
      forall id | Has(w.shown, id)
        ensures Has(Opened(w.shown, next), id)
        ensures PositionIn(Opened(w.shown, next), id)
             == if id == next.id then next.position else PositionIn(w.shown, id)
      {
        OpenedIs(w.shown, next, id);
      }
    case _ =>
  }

  predicate LegalRun(w: World, steps: seq<Step>)
    decreases |steps|
  {
    steps == [] || (Enabled(w, steps[0]) && LegalRun(Next(w, steps[0]), steps[1..]))
  }

  /** No step of the run opens as new an episode the list already shows further on. */
  predicate OpensOnlyNew(w: World, steps: seq<Step>)
    decreases |steps|
  {
    steps == [] || (!TakesBack(w, steps[0]) && OpensOnlyNew(Next(w, steps[0]), steps[1..]))
  }

  ghost predicate StepsForward(w: World, next: World) {
    forall id | Has(w.shown, id) :: PositionIn(w.shown, id) <= PositionIn(next.shown, id)
  }

  /** No step of the run takes a shown position back. */
  ghost predicate AlwaysForward(w: World, steps: seq<Step>)
    decreases |steps|
  {
    steps == [] || (StepsForward(w, Next(w, steps[0])) && AlwaysForward(Next(w, steps[0]), steps[1..]))
  }

  function Run(w: World, steps: seq<Step>): World
    decreases |steps|
  {
    if steps == [] then w else Run(Next(w, steps[0]), steps[1..])
  }

  const EMPTY := World(map[], {}, [])

  /** Over every interleaving, answers arriving in any order: ids stay unique, none is lost, nothing is ever
      ahead of the server. */
  lemma {:induction false} RunKeeps(w: World, steps: seq<Step>)
    requires Inv(w) && LegalRun(w, steps)
    ensures Inv(Run(w, steps)) && UniqueIds(Run(w, steps).shown)
    ensures forall id | Has(w.shown, id) :: Has(Run(w, steps).shown, id)
    decreases |steps|
  {
    if steps != [] {
      StepKeeps(w, steps[0]);
      StepIsMonotone(w, steps[0]);
      RunKeeps(Next(w, steps[0]), steps[1..]);
    }
  }

  /** And a position goes back somewhere in a run if and only if some step of it opens as new an episode the
      list already shows further on. */
  lemma {:induction false} ForwardIffOpensOnlyNew(w: World, steps: seq<Step>)
    requires Inv(w) && LegalRun(w, steps)
    ensures AlwaysForward(w, steps) <==> OpensOnlyNew(w, steps)
    decreases |steps|
  {
    if steps != [] {
      StepKeeps(w, steps[0]);
      StepIsMonotone(w, steps[0]);
      ForwardIffOpensOnlyNew(Next(w, steps[0]), steps[1..]);
    }
  }

  /** Then no shown position is lower at the end of the run than at its start. */
  lemma {:induction false} ForwardOverall(w: World, steps: seq<Step>)
    requires Inv(w) && LegalRun(w, steps) && OpensOnlyNew(w, steps)
    ensures StepsForward(w, Run(w, steps))
    decreases |steps|
  {
    if steps != [] {
      var next := Next(w, steps[0]);
      StepKeeps(w, steps[0]);
      StepIsMonotone(w, steps[0]);
      ForwardOverall(next, steps[1..]);
      forall id | Has(w.shown, id)
        ensures PositionIn(w.shown, id) <= PositionIn(Run(w, steps).shown, id)
      {
        assert Has(next.shown, id);
      }
    }
  }

  /** A run that has one: an episode listened to on another device, shown, and opened again as if new. */
  lemma ReopeningTakesBack(body: string)
    ensures var steps := [Created("x"), Listened("x", 5), Made(Episode("x", 5, body)), Made(Episode("x", 0, body))];
            LegalRun(EMPTY, steps) && !OpensOnlyNew(EMPTY, steps) && !AlwaysForward(EMPTY, steps)
  {
    var first, again := Made(Episode("x", 5, body)), Made(Episode("x", 0, body));
    var steps := [Created("x"), Listened("x", 5), first, again];
    var listened := World(map["x" := 5], {}, []);
    var shown := World(map["x" := 5], {}, [Episode("x", 5, body)]);
    assert steps[1..] == [Listened("x", 5), first, again] && steps[1..][1..] == [first, again];
    assert [first, again][1..] == [again] && [again][1..] == [];
    assert Next(Next(EMPTY, steps[0]), steps[1]) == listened;
    assert Next(listened, first) == shown by {
      assert Without([], "x") == [];
    }
    assert shown.shown[0] in shown.shown && PositionIn(shown.shown, "x") == 5;
    assert TakesBack(shown, again) && [again][0] == again && !OpensOnlyNew(shown, [again]);
    assert LegalRun(shown, [again]);
    assert LegalRun(listened, [first, again]) && !OpensOnlyNew(listened, [first, again]);
    ForwardIffOpensOnlyNew(EMPTY, steps);
  }

  /** The same from an empty page, against the server of the moment. */
  lemma ShownIsNeverAhead(steps: seq<Step>, id: string)
    requires LegalRun(EMPTY, steps) && Has(Run(EMPTY, steps).shown, id)
    ensures id in Run(EMPTY, steps).server
    ensures PositionIn(Run(EMPTY, steps).shown, id) <= Run(EMPTY, steps).server[id]
  {
    RunKeeps(EMPTY, steps);
    PositionBehind(Run(EMPTY, steps).server, Run(EMPTY, steps).shown, id);
  }
}
