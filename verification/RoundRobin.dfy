/** Round-robin sampling across repositories.

    The selection loop of scripts/fetch-coding-dataset.py: rows are queued by repository, and the queues
    take turns until the limit is reached or all are empty. */
module RoundRobin {
  import opened Reals

  datatype Rec = Rec(repo: string, id: string)

  /** Records of one repository, in dataset order. */
  function OfRepo(pool: seq<Rec>, repo: string): seq<Rec> {
    if pool == [] then []
    else OfRepo(pool[..|pool| - 1], repo) + if pool[|pool| - 1].repo == repo then [pool[|pool| - 1]] else []
  }

  lemma {:induction false} OfRepoAppend(a: seq<Rec>, b: seq<Rec>, repo: string)
    ensures OfRepo(a + b, repo) == OfRepo(a, repo) + OfRepo(b, repo)
    decreases |b|
  {
    if b == [] {
      assert a + b == a;
    } else {
      assert (a + b)[..|a + b| - 1] == a + b[..|b| - 1];
      OfRepoAppend(a, b[..|b| - 1], repo);
    }
  }

  // ----- the selection, round by round

  /** What the first `cut` queues contribute to round `k`: their k-th record, if they have one. */
  function PartRound(queues: seq<seq<Rec>>, k: nat, cut: nat): seq<Rec>
    requires cut <= |queues|
  {
    if cut == 0 then []
    else PartRound(queues, k, cut - 1) + if k < |queues[cut - 1]| then [queues[cut - 1][k]] else []
  }

  function Rounds(queues: seq<seq<Rec>>, r: nat): seq<Rec> {
    if r == 0 then [] else Rounds(queues, r - 1) + PartRound(queues, r - 1, |queues|)
  }

  /** How many records queue `j` has given after `r` full rounds and a round that got as far as `cut`. */
  function Taken(queues: seq<seq<Rec>>, r: nat, cut: nat, j: nat): nat
    requires j < |queues|
  {
    Min(|queues[j]|, if j < cut then r + 1 else r)
  }

  /** `kept` is what `r` full rounds and the first `cut` turns of the next one pick. */
  ghost predicate Selected(queues: seq<seq<Rec>>, kept: seq<Rec>, r: nat, cut: nat) {
    cut <= |queues| && kept == Rounds(queues, r) + PartRound(queues, r, cut)
  }

  ghost predicate LeftOver(queues: seq<seq<Rec>>, now: seq<seq<Rec>>, r: nat, cut: nat) {
    |now| == |queues| && forall j :: 0 <= j < |queues| ==> now[j] == queues[j][Taken(queues, r, cut, j)..]
  }

  function Total(queues: seq<seq<Rec>>): nat {
    if queues == [] then 0 else Total(queues[..|queues| - 1]) + |queues[|queues| - 1]|
  }

  predicate AnyLeft(queues: seq<seq<Rec>>) {
    exists j :: 0 <= j < |queues| && queues[j] != []
  }

  function TakenSum(queues: seq<seq<Rec>>, r: nat, cut: nat, n: nat): nat
    requires n <= |queues|
  {
    if n == 0 then 0 else TakenSum(queues, r, cut, n - 1) + Taken(queues, r, cut, n - 1)
  }

  lemma {:induction false} TakenOneMore(queues: seq<seq<Rec>>, r: nat, cut: nat, n: nat)
    requires cut < |queues| && n <= |queues|
    ensures TakenSum(queues, r, cut + 1, n)
            == TakenSum(queues, r, cut, n) + if cut < n && r < |queues[cut]| then 1 else 0
  {
    if n > 0 {
      TakenOneMore(queues, r, cut, n - 1);
    }
  }

  lemma {:induction false} TakenNextRound(queues: seq<seq<Rec>>, r: nat, n: nat)
    requires n <= |queues|
    ensures TakenSum(queues, r, |queues|, n) == TakenSum(queues, r + 1, 0, n)
  {
    if n > 0 {
      TakenNextRound(queues, r, n - 1);
    }
  }

  lemma {:induction false} TakenNothing(queues: seq<seq<Rec>>, n: nat)
    requires n <= |queues|
    ensures TakenSum(queues, 0, 0, n) == 0
  {
    if n > 0 {
      TakenNothing(queues, n - 1);
    }
  }

  /** Conservation: what has been kept is what the queues have given. */
  lemma {:induction false} KeptIsTaken(queues: seq<seq<Rec>>, r: nat, cut: nat)
    requires cut <= |queues|
    ensures |Rounds(queues, r) + PartRound(queues, r, cut)| == TakenSum(queues, r, cut, |queues|)
    decreases r, cut
  {
    if cut > 0 {
      KeptIsTaken(queues, r, cut - 1);
      TakenOneMore(queues, r, cut - 1, |queues|);
    } else if r > 0 {
      KeptIsTaken(queues, r - 1, |queues|);
      TakenNextRound(queues, r - 1, |queues|);
    } else {
      TakenNothing(queues, |queues|);
    }
  }

  lemma {:induction false} TakenAtMostTotal(queues: seq<seq<Rec>>, r: nat, cut: nat, n: nat)
    requires n <= |queues|
    ensures TakenSum(queues, r, cut, n) <= Total(queues[..n])
    ensures (forall j :: 0 <= j < n ==> Taken(queues, r, cut, j) == |queues[j]|) ==>
              TakenSum(queues, r, cut, n) == Total(queues[..n])
  {
    if n > 0 {
      TakenAtMostTotal(queues, r, cut, n - 1);
      assert queues[..n][..n - 1] == queues[..n - 1];
    }
  }

  /** The loop stopped for want of room or for want of records: either way it kept all it could. */
  lemma KeptCount(queues: seq<seq<Rec>>, now: seq<seq<Rec>>, kept: seq<Rec>, r: nat, cut: nat, limit: int)
    requires Selected(queues, kept, r, cut) && LeftOver(queues, now, r, cut)
    requires |kept| <= (if limit > 0 then limit else 0) && (|kept| < limit ==> !AnyLeft(now))
    ensures |kept| == Min(if limit > 0 then limit else 0, Total(queues))
  {
    KeptIsTaken(queues, r, cut);
    TakenAtMostTotal(queues, r, cut, |queues|);
    assert queues[..|queues|] == queues;
    if |kept| < limit {
      forall j | 0 <= j < |queues| ensures Taken(queues, r, cut, j) == |queues[j]| {
        assert now[j] == [];
      }
    }
  }

  lemma LeftOverStep(queues: seq<seq<Rec>>, now: seq<seq<Rec>>, kept: seq<Rec>, r: nat, j: nat)
    requires j < |queues| && Selected(queues, kept, r, j) && LeftOver(queues, now, r, j)
    ensures now[j] == [] ==> Selected(queues, kept, r, j + 1) && LeftOver(queues, now, r, j + 1)
    ensures now[j] != [] ==>
              && Selected(queues, kept + [now[j][0]], r, j + 1)
              && LeftOver(queues, now[j := now[j][1..]], r, j + 1)
  {
    hide Rounds, PartRound;
    PartRoundStep(queues, r, j);
    assert Taken(queues, r, j, j) == Min(|queues[j]|, r);
    LeftOverOthers(queues, now, r, j);
    if now[j] != [] {
      assert now[j][0] == queues[j][r] && now[j][1..] == queues[j][r + 1..];
      assert kept + [now[j][0]] == Rounds(queues, r) + (PartRound(queues, r, j) + [queues[j][r]]);
    }
  }

  lemma PartRoundStep(queues: seq<seq<Rec>>, r: nat, j: nat)
    requires j < |queues|
    ensures PartRound(queues, r, j + 1)
         == if r < |queues[j]| then PartRound(queues, r, j) + [queues[j][r]] else PartRound(queues, r, j)
  {
    assert PartRound(queues, r, j) + [] == PartRound(queues, r, j);
  }

  /** The turn of queue `j` moves no other queue. */
  lemma LeftOverOthers(queues: seq<seq<Rec>>, now: seq<seq<Rec>>, r: nat, j: nat)
    requires j < |queues| && LeftOver(queues, now, r, j)
    ensures forall i :: 0 <= i < |queues| && i != j ==> now[i] == queues[i][Taken(queues, r, j + 1, i)..]
  {}

  lemma NextRound(queues: seq<seq<Rec>>, now: seq<seq<Rec>>, kept: seq<Rec>, r: nat)
    requires Selected(queues, kept, r, |queues|) && LeftOver(queues, now, r, |queues|)
    ensures Selected(queues, kept, r + 1, 0) && LeftOver(queues, now, r + 1, 0)
  {
    assert Rounds(queues, r + 1) + PartRound(queues, r + 1, 0) == Rounds(queues, r) + PartRound(queues, r, |queues|);
    forall j | 0 <= j < |queues| ensures Taken(queues, r + 1, 0, j) == Taken(queues, r, |queues|, j) {}
  }

  /** Takes the queues in turn, popping from the front of each, until `limit` records are kept or all
      queues are empty. */
  method Select(queues: array<seq<Rec>>, limit: int) returns (kept: seq<Rec>, ghost r: nat, ghost cut: nat)
    modifies queues
    ensures Selected(old(queues[..]), kept, r, cut) && LeftOver(old(queues[..]), queues[..], r, cut)
    ensures |kept| == Min(if limit > 0 then limit else 0, Total(old(queues[..])))
  {
    hide Selected, LeftOver;
    ghost var all := queues[..];
    kept, r, cut := [], 0, 0;
    assert Selected(all, kept, 0, 0) && LeftOver(all, queues[..], 0, 0) by {
      NothingTaken(all);
    }
    while |kept| < limit && AnyLeft(queues[..])
      invariant cut == 0 || |kept| >= limit
      invariant Selected(all, kept, r, cut) && LeftOver(all, queues[..], r, cut)
      invariant |kept| <= (if limit > 0 then limit else 0)
      decreases limit - |kept|
    {
      ghost var some :| 0 <= some < queues.Length && queues[some] != [];
      ghost var before := |kept|;
      var j := 0;
      while j < queues.Length && |kept| < limit
        invariant j <= queues.Length && |kept| <= limit
        invariant Selected(all, kept, r, j) && LeftOver(all, queues[..], r, j)
        invariant if j <= some then queues[some] != [] && |kept| >= before else |kept| > before
      {
        LeftOverStep(all, queues[..], kept, r, j);
        SameLength(all, queues[..], r, j);
        if queues[j] != [] {
          kept := kept + [queues[j][0]];
          ghost var was := queues[..];
          queues[j] := queues[j][1..];
          assert queues[..] == was[j := was[j][1..]];
        }
        j := j + 1;
      }
      if |kept| < limit {
        SameLength(all, queues[..], r, j);
        NextRound(all, queues[..], kept, r);
        r := r + 1;
      } else {
        cut := j;
      }
    }
    KeptCount(all, queues[..], kept, r, cut, limit);
  }

  lemma SameLength(queues: seq<seq<Rec>>, now: seq<seq<Rec>>, r: nat, cut: nat)
    requires LeftOver(queues, now, r, cut)
    ensures |now| == |queues|
  {}

  lemma NothingTaken(queues: seq<seq<Rec>>)
    ensures Selected(queues, [], 0, 0) && LeftOver(queues, queues, 0, 0)
  {}

  // ----- what makes it fair

  /** Any two queues have given equally many records give or take one, unless the one that gave less is
      exhausted; of two equally long queues the earlier one never lags. */
  lemma Balanced(queues: seq<seq<Rec>>, now: seq<seq<Rec>>, r: nat, cut: nat, a: nat, b: nat)
    requires LeftOver(queues, now, r, cut) && a < |queues| && b < |queues|
    ensures var ga, gb := |queues[a]| - |now[a]|, |queues[b]| - |now[b]|;
            && (ga + 1 < gb ==> now[a] == [])
            && (a < b && ga < gb ==> now[a] == [])
  {}

  /** Queue `j` holds the records of repository `names[j]` and every name occurs once. */
  ghost predicate ByRepo(names: seq<string>, queues: seq<seq<Rec>>) {
    && |names| == |queues|
    && (forall i, j :: 0 <= i < j < |names| ==> names[i] != names[j])
    && forall j, k :: 0 <= j < |queues| && 0 <= k < |queues[j]| ==> queues[j][k].repo == names[j]
  }

  lemma OfRepoTurn(turn: seq<Rec>, repo: string)
    requires |turn| <= 1
    ensures OfRepo(turn, repo) == if |turn| == 1 && turn[0].repo == repo then turn else []
  {
    if |turn| == 1 {
      assert turn[..0] == [];
    }
  }

  lemma {:induction false} PartRoundOf(names: seq<string>, queues: seq<seq<Rec>>, k: nat, cut: nat, j: nat)
    requires ByRepo(names, queues) && cut <= |queues| && j < |queues|
    ensures OfRepo(PartRound(queues, k, cut), names[j]) == if j < cut && k < |queues[j]| then [queues[j][k]] else []
    decreases cut
  {
    hide OfRepo;
    if cut == 0 {
      OfRepoTurn([], names[j]);
    } else {
      PartRoundOf(names, queues, k, cut - 1, j);
      var turn := if k < |queues[cut - 1]| then [queues[cut - 1][k]] else [];
      OfRepoAppend(PartRound(queues, k, cut - 1), turn, names[j]);
      OfRepoTurn(turn, names[j]);
      if k < |queues[cut - 1]| {
        assert turn[0].repo == names[cut - 1];
      }
    }
  }

  lemma {:induction false} RoundsOf(names: seq<string>, queues: seq<seq<Rec>>, r: nat, j: nat)
    requires |names| == |queues| && ByRepo(names, queues) && j < |queues|
    ensures OfRepo(Rounds(queues, r), names[j]) == queues[j][..Min(|queues[j]|, r)]
  {
    hide OfRepo, PartRound, ByRepo;
    if r == 0 {
      OfRepoTurn([], names[j]);
    } else {
      RoundsOf(names, queues, r - 1, j);
      PartRoundOf(names, queues, r - 1, |queues|, j);
      OfRepoAppend(Rounds(queues, r - 1), PartRound(queues, r - 1, |queues|), names[j]);
    }
  }

  /** What is kept of a repository is exactly the front of its queue, in dataset order. */
  lemma KeptIsPrefix(names: seq<string>, queues: seq<seq<Rec>>, r: nat, cut: nat, j: nat)
    requires |names| == |queues| && ByRepo(names, queues) && cut <= |queues| && j < |queues|
    ensures OfRepo(Rounds(queues, r) + PartRound(queues, r, cut), names[j]) == queues[j][..Taken(queues, r, cut, j)]
  {
    hide ByRepo, OfRepo, Rounds, PartRound;
    RoundsOf(names, queues, r, j);
    PartRoundOf(names, queues, r, cut, j);
    OfRepoAppend(Rounds(queues, r), PartRound(queues, r, cut), names[j]);
  }

  // ----- the whole selection

  method GroupByRepo(pool: seq<Rec>) returns (byRepo: map<string, seq<Rec>>)
    ensures forall repo :: repo in byRepo <==> OfRepo(pool, repo) != []
    ensures forall repo :: repo in byRepo ==> byRepo[repo] == OfRepo(pool, repo)
  {
    byRepo := map[];
    for i := 0 to |pool|
      invariant forall repo :: repo in byRepo <==> OfRepo(pool[..i], repo) != []
      invariant forall repo :: repo in byRepo ==> byRepo[repo] == OfRepo(pool[..i], repo)
    {
      assert pool[..i + 1][..i] == pool[..i];
      var rec := pool[i];
      byRepo := byRepo[rec.repo := (if rec.repo in byRepo then byRepo[rec.repo] else []) + [rec]];
    }
    assert pool[..|pool|] == pool;
  }

  ghost predicate Lists(names: seq<string>, pool: seq<Rec>) {
    && (forall i, j :: 0 <= i < j < |names| ==> names[i] != names[j])
    && (forall i :: 0 <= i < |pool| ==> pool[i].repo in names)
    && (forall j :: 0 <= j < |names| ==> OfRepo(pool, names[j]) != [])
  }

  function Queues(names: seq<string>, pool: seq<Rec>): (queues: seq<seq<Rec>>)
    ensures |queues| == |names|
  {
    seq(|names|, j requires 0 <= j < |names| => OfRepo(pool, names[j]))
  }

  lemma {:induction false} OfRepoMembers(pool: seq<Rec>, repo: string)
    ensures forall k :: 0 <= k < |OfRepo(pool, repo)| ==> OfRepo(pool, repo)[k].repo == repo
  {
    if pool != [] {
      OfRepoMembers(pool[..|pool| - 1], repo);
    }
  }

  lemma {:induction false} TotalOfEmpty(names: seq<string>)
    ensures Total(Queues(names, [])) == 0
  {
    if names != [] {
      assert Queues(names, [])[..|names| - 1] == Queues(names[..|names| - 1], []);
      TotalOfEmpty(names[..|names| - 1]);
    }
  }

  lemma {:induction false} TotalOneMore(names: seq<string>, pool: seq<Rec>, rec: Rec)
    requires forall i, j :: 0 <= i < j < |names| ==> names[i] != names[j]
    ensures Total(Queues(names, pool + [rec])) == Total(Queues(names, pool)) + if rec.repo in names then 1 else 0
  {
    if names != [] {
      var most, last := names[..|names| - 1], names[|names| - 1];
      assert names == most + [last];
      TotalOneMore(most, pool, rec);
      assert Queues(names, pool)[..|most|] == Queues(most, pool);
      assert Queues(names, pool + [rec])[..|most|] == Queues(most, pool + [rec]);
      assert (pool + [rec])[..|pool|] == pool;
    }
  }

  /** The queues together hold every record of the pool exactly once. */
  lemma {:induction false} QueuesHoldThePool(names: seq<string>, pool: seq<Rec>)
    requires forall i, j :: 0 <= i < j < |names| ==> names[i] != names[j]
    requires forall i :: 0 <= i < |pool| ==> pool[i].repo in names
    ensures Total(Queues(names, pool)) == |pool|
    decreases |pool|
  {
    if pool == [] {
      TotalOfEmpty(names);
    } else {
      var most, rec := pool[..|pool| - 1], pool[|pool| - 1];
      assert pool == most + [rec];
      QueuesHoldThePool(names, most);
      TotalOneMore(names, most, rec);
    }
  }

  /** A fair sample: as many records as asked for or as there are, of every repository the front of its
      records in dataset order, and no repository behind another by more than one unless used up. */
  ghost predicate FairSample(names: seq<string>, pool: seq<Rec>, limit: int, kept: seq<Rec>) {
    && |kept| == Min(if limit > 0 then limit else 0, |pool|)
    && (forall j :: 0 <= j < |names| ==> OfRepo(kept, names[j]) <= OfRepo(pool, names[j]))
    && forall a, b :: 0 <= a < |names| && 0 <= b < |names| ==>
         (|OfRepo(kept, names[a])| + 1 < |OfRepo(kept, names[b])| ==> OfRepo(kept, names[a]) == OfRepo(pool, names[a]))
  }

  lemma SelectionIsFair(names: seq<string>, pool: seq<Rec>, limit: int, kept: seq<Rec>, now: seq<seq<Rec>>, r: nat,
                        cut: nat)
    requires Lists(names, pool) && Selected(Queues(names, pool), kept, r, cut)
    requires LeftOver(Queues(names, pool), now, r, cut)
    requires |kept| == Min(if limit > 0 then limit else 0, Total(Queues(names, pool)))
    ensures FairSample(names, pool, limit, kept)
  {
    hide OfRepo, Rounds, PartRound, Total, LeftOver;
    var queues: seq<seq<Rec>> := Queues(names, pool);
    QueuesHoldThePool(names, pool);
    QueuesAreByRepo(names, pool);
    forall j | 0 <= j < |names| ensures OfRepo(kept, names[j]) == queues[j][..Taken(queues, r, cut, j)] {
      KeptIsPrefix(names, queues, r, cut, j);
    }
  }

  lemma QueuesAreByRepo(names: seq<string>, pool: seq<Rec>)
    requires forall i, j :: 0 <= i < j < |names| ==> names[i] != names[j]
    ensures ByRepo(names, Queues(names, pool))
  {
    hide OfRepo;
    var queues: seq<seq<Rec>> := Queues(names, pool);
    forall j: int | 0 <= j < |queues|
      ensures forall k :: 0 <= k < |queues[j]| ==> queues[j][k].repo == names[j]
    {
      OfRepoMembers(pool, names[j]);
    }
  }

  /** `names` are the repositories of the pool in sorted order; nothing below depends on which order. */
  method Sample(pool: seq<Rec>, names: seq<string>, limit: int) returns (kept: seq<Rec>)
    requires Lists(names, pool)
    ensures FairSample(names, pool, limit, kept)
  {
    var byRepo := GroupByRepo(pool);
    var queues := new seq<Rec>[|names|];
    for j := 0 to |names|
      invariant forall i :: 0 <= i < j ==> queues[i] == OfRepo(pool, names[i])
    {
      queues[j] := byRepo[names[j]];
    }
    assert queues[..] == Queues(names, pool);
    ghost var r, cut;
    kept, r, cut := Select(queues, limit);
    SelectionIsFair(names, pool, limit, kept, queues[..], r, cut);
  }
}
