/** The admin job list: a keyset page on the job id, and a client that follows its cursor while the table
    changes in any way between two reads. */
module KeysetWalk {
  import opened Prelude

  /** A row of the list: its id, the user it resolves to, and everything else it shows. */
  datatype Job = Job(id: nat, user: Option<string>, shown: string)

  /** The table as `ORDER BY id DESC` reads it. Ids are a sequence's: unique, and from one. */
  predicate Indexed(table: seq<Job>) {
    && (forall i | 0 <= i < |table| :: table[i].id >= 1)
    && (forall i, j | 0 <= i < j < |table| :: table[i].id > table[j].id)
  }

  predicate Matches(job: Job, user: Option<string>, before: Option<nat>) {
    (user.None? || job.user == user) && (before.None? || job.id < before.value)
  }

  /** `WHERE … ORDER BY id DESC LIMIT limit`. */
  function Query(table: seq<Job>, user: Option<string>, before: Option<nat>, limit: nat): seq<Job> {
    if table == [] || limit == 0 then []
    else if Matches(table[0], user, before) then [table[0]] + Query(table[1..], user, before, limit - 1)
    else Query(table[1..], user, before, limit)
  }

  datatype Page = Page(jobs: seq<Job>, nextBefore: Option<nat>)

  /** The route: one row more than the page is read, to learn whether there is a next one. */
  function Overview(table: seq<Job>, user: Option<string>, before: Option<nat>, limit: nat): Page
    requires limit >= 1
  {
    var page := Query(table, user, before, limit + 1);
    if |page| > limit then Page(page[..limit], Some(page[limit - 1].id)) else Page(page, None)
  }

  datatype Walked = Walked(jobs: seq<Job>, ended: bool)

  /** Follow the cursor: the k-th read finds the table as `tables[k]`. */
  function Walk(tables: seq<seq<Job>>, user: Option<string>, before: Option<nat>, limit: nat): Walked
    requires limit >= 1
  {
    if tables == [] then Walked([], false)
    else
      var page := Overview(tables[0], user, before, limit);
      if page.nextBefore.None? then Walked(page.jobs, true)
      else
        var rest := Walk(tables[1..], user, page.nextBefore, limit);
        Walked(page.jobs + rest.jobs, rest.ended)
  }

  // ---- One query ----

  predicate Descending(jobs: seq<Job>) { forall i, j | 0 <= i < j < |jobs| :: jobs[i].id > jobs[j].id }

  predicate Listed(jobs: seq<Job>, id: nat) { exists i :: 0 <= i < |jobs| && jobs[i].id == id }

  /** A matching row with this id is in the table. */
  predicate Present(table: seq<Job>, user: Option<string>, id: nat) {
    exists job :: job in table && job.id == id && (user.None? || job.user == user)
  }

  lemma {:induction false} QueryIs(table: seq<Job>, user: Option<string>, before: Option<nat>, limit: nat)
    requires Indexed(table)
    ensures |Query(table, user, before, limit)| <= limit
    ensures Descending(Query(table, user, before, limit))
    ensures forall job | job in Query(table, user, before, limit) :: job in table && Matches(job, user, before)
  {
    if table != [] && limit != 0 {
      var left := if Matches(table[0], user, before) then limit - 1 else limit;
      QueryIs(table[1..], user, before, left);
      forall job | job in Query(table[1..], user, before, left)
        ensures job.id < table[0].id
      {
        var i :| 0 <= i < |table[1..]| && table[1..][i] == job;
        assert table[i + 1] == job;
      }
    }
  }

  /** What a query leaves out is either past a full page, and older than all of it, or does not match. */
  lemma {:induction false} QueryMisses(table: seq<Job>, user: Option<string>, before: Option<nat>, limit: nat, job: Job)
    requires Indexed(table) && job in table && Matches(job, user, before)
    ensures var page := Query(table, user, before, limit);
            job in page || (|page| == limit && forall other | other in page :: other.id > job.id)
  {
    if limit != 0 {
      var i :| 0 <= i < |table| && table[i] == job;
      var rest := if Matches(table[0], user, before) then limit - 1 else limit;
      if i > 0 {
        assert job == table[1..][i - 1];
        QueryMisses(table[1..], user, before, rest, job);
      }
    }
  }

  // ---- One page ----

  lemma PageIs(table: seq<Job>, user: Option<string>, before: Option<nat>, limit: nat)
    requires Indexed(table) && limit >= 1
    ensures var page := Overview(table, user, before, limit);
            && |page.jobs| <= limit && Descending(page.jobs)
            && (forall job | job in page.jobs :: job in table && Matches(job, user, before))
            && (page.nextBefore.Some? ==> |page.jobs| == limit && page.nextBefore == Some(page.jobs[limit - 1].id))
  {
    QueryIs(table, user, before, limit + 1);
  }

  /** A page that is not the last leaves out only what its own cursor asks for next; the last, nothing. */
  lemma PageCovers(table: seq<Job>, user: Option<string>, before: Option<nat>, limit: nat, job: Job)
    requires Indexed(table) && limit >= 1 && job in table && Matches(job, user, before)
    ensures var page := Overview(table, user, before, limit);
            job in page.jobs || (page.nextBefore.Some? && job.id < page.nextBefore.value)
  {
    QueryIs(table, user, before, limit + 1);
    QueryMisses(table, user, before, limit + 1, job);
    var page := Query(table, user, before, limit + 1);
    if |page| > limit {
      assert page[limit - 1] in page && page[limit] in page;
      if job in page && job !in page[..limit] {
        assert job == page[limit];
      }
    }
  }

  /** The cursor moves down by at least the page size, and is always one the route accepts. */
  lemma CursorMoves(table: seq<Job>, user: Option<string>, before: nat, limit: nat)
    requires Indexed(table) && limit >= 1
    ensures var next := Overview(table, user, Some(before), limit).nextBefore;
            next.Some? ==> 1 <= next.value && next.value + limit <= before
  {
    PageIs(table, user, Some(before), limit);
    var page := Overview(table, user, Some(before), limit);
    if page.nextBefore.Some? {
      assert page.jobs[0] in page.jobs && page.jobs[limit - 1] in page.jobs;
      DescendsByOnes(page.jobs, limit - 1);
    }
  }

  lemma {:induction false} DescendsByOnes(jobs: seq<Job>, k: nat)
    requires Descending(jobs) && k < |jobs|
    ensures jobs[k].id + k <= jobs[0].id
  {
    if k > 0 {
      DescendsByOnes(jobs, k - 1);
      assert jobs[k - 1].id > jobs[k].id;
    }
  }

  // ---- The walk ----

  lemma AppendDescending(a: seq<Job>, b: seq<Job>)
    requires Descending(a) && Descending(b)
    requires a != [] ==> forall job | job in b :: job.id < a[|a| - 1].id
    ensures Descending(a + b)
  {
    forall i, j | 0 <= i < j < |a + b|
      ensures (a + b)[i].id > (a + b)[j].id
    {
      if i < |a| <= j {
        assert b[j - |a|] in b;
        assert a[i].id >= a[|a| - 1].id;
      }
    }
  }

  /** Whatever happens to the table between reads, the walk lists strictly decreasing ids, so none twice, and
      only below the cursor it started from. */
  lemma {:induction false} WalkDescends(tables: seq<seq<Job>>, user: Option<string>, before: Option<nat>, limit: nat)
    requires limit >= 1 && forall table | table in tables :: Indexed(table)
    ensures Descending(Walk(tables, user, before, limit).jobs)
    ensures forall job | job in Walk(tables, user, before, limit).jobs :: Matches(job, user, before)
    decreases |tables|
  {
    if tables != [] {
      var page := Overview(tables[0], user, before, limit);
      PageIs(tables[0], user, before, limit);
      if page.nextBefore.Some? {
        var rest := Walk(tables[1..], user, page.nextBefore, limit);
        WalkDescends(tables[1..], user, page.nextBefore, limit);
        assert page.jobs[limit - 1] in page.jobs;
        AppendDescending(page.jobs, rest.jobs);
      }
    }
  }

  /** Every job listed was in the table, for the user asked about, when its page was read. */
  lemma {:induction false} WalkIsHonest(tables: seq<seq<Job>>, user: Option<string>, before: Option<nat>,
                                        limit: nat, job: Job)
    requires limit >= 1 && forall table | table in tables :: Indexed(table)
    requires job in Walk(tables, user, before, limit).jobs
    ensures exists k :: 0 <= k < |tables| && job in tables[k] && Present(tables[k], user, job.id)
    decreases |tables|
  {
    var page := Overview(tables[0], user, before, limit);
    PageIs(tables[0], user, before, limit);
    if job in page.jobs {
      assert job in tables[0] && Present(tables[0], user, job.id);
    } else {
      WalkIsHonest(tables[1..], user, page.nextBefore, limit, job);
      var k :| 0 <= k < |tables[1..]| && job in tables[1..][k] && Present(tables[1..][k], user, job.id);
      assert tables[k + 1] == tables[1..][k];
    }
  }

  lemma ListedAppend(a: seq<Job>, b: seq<Job>, id: nat)
    ensures Listed(a + b, id) <==> Listed(a, id) || Listed(b, id)
  {
    if Listed(a, id) {
      var i :| 0 <= i < |a| && a[i].id == id;
      assert (a + b)[i].id == id;
    }
    if Listed(b, id) {
      var i :| 0 <= i < |b| && b[i].id == id;
      assert (a + b)[|a| + i].id == id;
    }
  }

  /** A finished walk has listed every job that was there at every read, however rows came and went
      around it. With `WalkDescends`: exactly once. */
  lemma {:induction false} WalkMissesNothing(tables: seq<seq<Job>>, user: Option<string>, before: Option<nat>,
                                             limit: nat, id: nat)
    requires limit >= 1 && forall table | table in tables :: Indexed(table)
    requires Walk(tables, user, before, limit).ended
    requires forall table | table in tables :: Present(table, user, id)
    requires before.Some? ==> id < before.value
    ensures Listed(Walk(tables, user, before, limit).jobs, id)
    decreases |tables|
  {
    var page := Overview(tables[0], user, before, limit);
    assert Present(tables[0], user, id);
    var job :| job in tables[0] && job.id == id && (user.None? || job.user == user);
    PageCovers(tables[0], user, before, limit, job);
    if page.nextBefore.Some? {
      var rest := Walk(tables[1..], user, page.nextBefore, limit);
      if job !in page.jobs {
        WalkMissesNothing(tables[1..], user, page.nextBefore, limit, id);
      }
      ListedAppend(page.jobs, rest.jobs, id);
    }
  }

  /** It ends: from a cursor, after as many pages as the ids below it can fill. */
  lemma {:induction false} WalkEnds(tables: seq<seq<Job>>, user: Option<string>, before: nat, limit: nat)
    requires limit >= 1 && forall table | table in tables :: Indexed(table)
    requires 1 <= |tables| && before <= limit * |tables| + 1
    ensures Walk(tables, user, Some(before), limit).ended
    decreases |tables|
  {
    var next := Overview(tables[0], user, Some(before), limit).nextBefore;
    CursorMoves(tables[0], user, before, limit);
    if next.Some? {
      assert limit * |tables| == limit * |tables[1..]| + limit;
      LastPageIsLast(tables[0], user, before, limit);
      assert tables[1..] != [];
      WalkEnds(tables[1..], user, next.value, limit);
    }
  }

  /** A page that could hold every id below its cursor has no next one. */
  lemma LastPageIsLast(table: seq<Job>, user: Option<string>, before: nat, limit: nat)
    requires Indexed(table) && limit >= 1
    ensures Overview(table, user, Some(before), limit).nextBefore.Some? ==> before > limit + 1
  {
    QueryIs(table, user, Some(before), limit + 1);
    var page := Query(table, user, Some(before), limit + 1);
    if |page| > limit {
      DescendsByOnes(page, limit);
      assert page[0] in page && page[limit] in page;
    }
  }

  /** The newest page is the page before any id the table does not reach. */
  lemma {:induction false} NewestIsBefore(table: seq<Job>, user: Option<string>, before: nat, limit: nat)
    requires forall job | job in table :: job.id < before
    ensures Query(table, user, None, limit) == Query(table, user, Some(before), limit)
  {
    if table != [] && limit != 0 {
      NewestIsBefore(table[1..], user, before, if Matches(table[0], user, None) then limit - 1 else limit);
    }
  }

  /** So a walk from the top ends too, whatever is inserted above it meanwhile: the table its first read
      found bounds the whole of it. */
  lemma WalkFromTheTopEnds(tables: seq<seq<Job>>, user: Option<string>, limit: nat, top: nat)
    requires limit >= 1 && forall table | table in tables :: Indexed(table)
    requires 1 <= |tables| && top <= limit * |tables| && forall job | job in tables[0] :: job.id <= top
    ensures Walk(tables, user, None, limit).ended
  {
    NewestIsBefore(tables[0], user, top + 1, limit + 1);
    WalkEnds(tables, user, top + 1, limit);
    assert Overview(tables[0], user, None, limit) == Overview(tables[0], user, Some(top + 1), limit);
  }
}
