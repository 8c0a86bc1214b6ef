/** Parent links reach any depth: a swarm member made a slave can itself have swarm members. */
module ParentDepth {
  import opened OrderedDicts
  import opened Panes
  import opened PaneTable
  import opened Registry
  import opened Transactions

  function KeyAt(i: nat): PaneKey {
    PaneKey("c", "s", "", i, 0, "")
  }

  const LIVE_ROW := PaneRow(Details("", "", 0, "", "", "", "", false), true, "", "")

  function LivePanes(n: nat): (rows: Rows)
    ensures forall i: nat :: i < n ==> IsActive(rows, KeyAt(i))
  {
    if n == 0 then map[] else LivePanes(n - 1)[KeyAt(n - 1) := LIVE_ROW]
  }

  /** One active container with `n` active panes. */
  function World(n: nat): Db {
    Db(map["c" := true], LivePanes(n), map[])
  }

  function ParentAt(ids: seq<AgentId>, i: nat): Option<AgentId>
    requires i < |ids|
  {
    if i == 0 then None else Some(ids[i - 1])
  }

  /** Registering agent `i` as a swarm member under agent `i - 1`, or the first agent as a slave. */
  function Enrol(ids: seq<AgentId>, i: nat): Request
    requires i < |ids|
  {
    Request("c", KeyAt(i), Some(if i == 0 then Slave else Swarm), None, None, None,
            if i == 0 then None else Some(ParentAt(ids, i)), NotAsked, [ids[i], ids[i], ids[i], ids[i], ids[i]], "")
  }

  /** A call on its own, with its append. */
  function WithCall(steps: seq<Step>, step: Step): seq<Step> {
    (steps + [step]) + [Append(0, true)]
  }

  /** Agent `i` is there, on its pane and under agent `i - 1`. */
  predicate Linked(agents: Agents, ids: seq<AgentId>, i: nat)
    requires i < |ids|
  {
    ids[i] in agents && agents[ids[i]].key == KeyAt(i) && agents[ids[i]].parent == ParentAt(ids, i)
  }

  /** The first `n` agents in a line, and no others; the last one an active slave. */
  ghost predicate Line(s: State, ids: seq<AgentId>, n: nat) {
    && n <= |ids| && Distinct(ids) && s.db.containers == map["c" := true] && s.db.panes == LivePanes(|ids|)
    && (forall a :: a in s.db.agents ==> a in ids[..n])
    && (forall i: nat :: i < n ==> Linked(s.db.agents, ids, i))
    && (n > 0 ==> ids[n - 1] in s.db.agents && s.db.agents[ids[n - 1]].active && s.db.agents[ids[n - 1]].role == Slave)
  }

  /** The next pane has no agent, and the next id is free. */
  lemma {:induction false} NextFree(s: State, ids: seq<AgentId>, n: nat)
    requires Line(s, ids, n) && n < |ids|
    ensures ids[n] !in s.db.agents && !Bound(s.db.agents, KeyAt(n))
  {
    forall a | a in s.db.agents
      ensures a != ids[n] && s.db.agents[a].key != KeyAt(n)
    {
      var i :| 0 <= i < n && ids[..n][i] == a;
      assert Linked(s.db.agents, ids, i);
    }
  }

  lemma {:induction false} EnrolNext(s: State, ids: seq<AgentId>, n: nat)
    requires Line(s, ids, n) && n < |ids|
    ensures var tx := RegisterTx(s.db, Enrol(ids, n));
            && tx.Committed? && tx.agents == s.db.agents[ids[n] := NewAgent(Enrol(ids, n))]
            && tx.row == Some(AuditRow(ids[n], None, if n == 0 then Slave else Swarm, false))
  {
    var req := Enrol(ids, n);
    assert IsActive(s.db.panes, KeyAt(n)) && PaneLive(s.db, req.key) && StaticRefusal(req).None?;
    NextFree(s, ids, n);
    assert FirstFree(s.db.agents, req.ids) == Some(ids[n]);
  }

  ghost function Call(s: State, step: Step): State {
    Apply(Apply(s, step), Append(0, true))
  }

  lemma {:induction false} RunWithCall(db: Db, steps: seq<Step>, step: Step)
    ensures Run(db, WithCall(steps, step)) == Call(Run(db, steps), step)
  {
    RunSnoc(db, steps, step);
    RunSnoc(db, steps + [step], Append(0, true));
  }

  lemma {:induction false} CallCommits(s: State, step: Step, tx: Tx, hold: Hold)
    requires s.pending == [] && Apply(s, step) == AfterTx(s, tx, hold) && tx.Committed?
    ensures Call(s, step).pending == [] && Call(s, step).db == s.db.(agents := tx.agents)
    ensures Call(s, step).log == s.log + RowSeq(tx.row)
  {
  }

  lemma {:induction false} LineGrows(s: State, s': State, ids: seq<AgentId>, n: nat, a: Agent)
    requires Line(s, ids, n) && n < |ids| && s'.db.containers == s.db.containers && s'.db.panes == s.db.panes
    requires a.key == KeyAt(n) && a.parent == ParentAt(ids, n) && a.active && a.role == Slave
    requires s'.db.agents == s.db.agents[ids[n] := a]
    ensures Line(s', ids, n + 1)
  {
    assert ids[..n + 1] == ids[..n] + [ids[n]];
    forall i: nat | i < n + 1
      ensures Linked(s'.db.agents, ids, i)
    {
      if i < n {
        assert Linked(s.db.agents, ids, i);
      }
    }
  }

  lemma {:induction false} CallEnrol(s: State, ids: seq<AgentId>, n: nat)
    requires Line(s, ids, n) && n < |ids| && s.pending == []
    ensures Call(s, Register(Enrol(ids, n))).pending == []
    ensures Call(s, Register(Enrol(ids, n))).db == s.db.(agents := s.db.agents[ids[n] := NewAgent(Enrol(ids, n))])
    ensures Call(s, Register(Enrol(ids, n))).log == s.log + [AuditRow(ids[n], None, if n == 0 then Slave else Swarm, false)]
  {
    EnrolNext(s, ids, n);
    CallCommits(s, Register(Enrol(ids, n)), RegisterTx(s.db, Enrol(ids, n)), RegisterOn(KeyAt(n)));
  }

  lemma {:induction false} CallPromote(s: State, id: AgentId)
    requires id in s.db.agents && s.db.agents[id].active && s.db.agents[id].permissions == Derived(s.db.agents[id].role)
    requires s.pending == []
    ensures Call(s, SetRole(id, Slave, false)).pending == []
    ensures Call(s, SetRole(id, Slave, false)).db ==
            s.db.(agents := s.db.agents[id := s.db.agents[id].(role := Slave, permissions := Derived(Slave))])
  {
    CallCommits(s, SetRole(id, Slave, false), SetRoleTx(s.db, id, Slave, false), AgentOf(id));
  }

  /** One more agent: registered under the last, then made a slave. */
  lemma {:induction false} OneDeeper(s: State, ids: seq<AgentId>, n: nat)
    requires Line(s, ids, n) && n < |ids| && s.pending == []
    ensures var s2 := Call(Call(s, Register(Enrol(ids, n))), SetRole(ids[n], Slave, false));
            s2.pending == [] && Line(s2, ids, n + 1)
  {
    CallEnrol(s, ids, n);
    var s1, a := Call(s, Register(Enrol(ids, n))), NewAgent(Enrol(ids, n));
    CallPromote(s1, ids[n]);
    SetTwice(s.db.agents, ids[n], a, a.(role := Slave, permissions := Derived(Slave)));
    LineGrows(s, Call(s1, SetRole(ids[n], Slave, false)), ids, n, a.(role := Slave, permissions := Derived(Slave)));
  }

  lemma {:induction false} SetTwice(agents: Agents, id: AgentId, a: Agent, b: Agent)
    ensures agents[id := a][id := b] == agents[id := b]
  {
  }

  ghost predicate Ready(s: State, ids: seq<AgentId>, n: nat) {
    s.pending == [] && Line(s, ids, n)
  }

  lemma {:induction false} RunDeeper(db: Db, steps: seq<Step>, ids: seq<AgentId>, n: nat) returns (more: seq<Step>)
    requires n < |ids| && Ready(Run(db, steps), ids, n)
    ensures Ready(Run(db, more), ids, n + 1)
  {
    OneDeeper(Run(db, steps), ids, n);
    RunWithCall(db, steps, Register(Enrol(ids, n)));
    RunWithCall(db, WithCall(steps, Register(Enrol(ids, n))), SetRole(ids[n], Slave, false));
    more := WithCall(WithCall(steps, Register(Enrol(ids, n))), SetRole(ids[n], Slave, false));
  }

  lemma {:induction false} Climb(ids: seq<AgentId>, n: nat) returns (steps: seq<Step>)
    requires n <= |ids| && Distinct(ids)
    ensures Ready(Run(World(|ids|), steps), ids, n)
  {
    steps := [];
    if n > 0 {
      steps := Climb(ids, n - 1);
      steps := RunDeeper(World(|ids|), steps, ids, n - 1);
    }
  }

  /** From the last agent up to the first. */
  function Upward(ids: seq<AgentId>): (path: seq<AgentId>)
    ensures |path| == |ids| && forall i :: 0 <= i < |ids| ==> path[i] == ids[|ids| - 1 - i]
  {
    seq(|ids|, i requires 0 <= i < |ids| => ids[|ids| - 1 - i])
  }

  lemma {:induction false} LineAncestry(s: State, ids: seq<AgentId>)
    requires Line(s, ids, |ids|)
    ensures Ancestry(s.db.agents, Upward(ids))
  {
    var path := Upward(ids);
    forall i | 0 <= i < |ids| - 1
      ensures path[i] in s.db.agents && s.db.agents[path[i]].parent == Some(path[i + 1])
    {
      assert Linked(s.db.agents, ids, |ids| - 1 - i);
    }
  }

  /** Any distinct ids, in any order, are a line of ancestors in some run that creates no other agent. */
  lemma {:induction false} AnyLine(ids: seq<AgentId>) returns (steps: seq<Step>)
    requires Distinct(ids)
    ensures var s := Run(World(|ids|), steps);
            && Ancestry(s.db.agents, Upward(ids))
            && (forall a :: a in s.db.agents <==> a in ids)
            && (ids != [] ==> s.db.agents[ids[|ids| - 1]].role == Slave)
  {
    steps := Climb(ids, |ids|);
    var s := Run(World(|ids|), steps);
    LineAncestry(s, ids);
    assert ids[..|ids|] == ids;
    forall i | 0 <= i < |ids|
      ensures ids[i] in s.db.agents
    {
      assert Linked(s.db.agents, ids, i);
    }
  }

  /** `n` distinct names. */
  function Names(n: nat): (ids: seq<AgentId>)
    ensures |ids| == n && forall i :: 0 <= i < n ==> |ids[i]| == i
  {
    if n == 0 then [] else Names(n - 1) + [seq(n - 1, _ => 'a')]
  }

  /** For every `n` some run has a line of ancestors of that length. */
  lemma {:induction false} DepthUnbounded(n: nat) returns (db: Db, steps: seq<Step>, path: seq<AgentId>)
    ensures |path| == n && Ancestry(Run(db, steps).db.agents, path)
  {
    db, path := World(n), Upward(Names(n));
    steps := AnyLine(Names(n));
  }
}
