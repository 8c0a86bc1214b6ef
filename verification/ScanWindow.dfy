/** A pane scan reads in three queries and commits in a fourth transaction: what may have changed in between. */
module ScanWindow {
  import opened Panes
  import opened PaneReconcile
  import PaneScan
  import opened PaneTable
  import opened Registry
  import opened Transactions

  /** What the readings of the scan in progress still say about the tables. */
  ghost predicate Readings(s: State) {
    match s.phase
    case Idle => true
    case ReadActive(active, _, flipped) => forall c :: c in active ==> ContainerActive(s.db, c) || c in flipped
    case ReadCascade(active, cascade, flipped) => active * cascade <= flipped
    case ReadPrior(active, cascade, flipped, prior) => active * cascade <= flipped && prior == s.db.panes
  }

  lemma {:induction false} QueriesRead(s: State, step: Step)
    requires Readings(s) && Quiet(step)
    ensures Readings(Apply(s, step))
  {
    match step
    case Containers(containers) =>
      if s.phase.ReadActive? {
        var db' := s.db.(containers := containers);
        forall c | c in s.phase.active
          ensures ContainerActive(db', c) || c in Apply(s, step).phase.flipped
        {
          assert ContainerActive(s.db, c) ==> c in ActiveIds(s.db);
        }
      }
    case QueryCascade =>
      if s.phase.ReadActive? {
        forall c | c in s.phase.active && c in PaneScan.SelectedIds(CascadeIds(s.db), s.phase.filter)
          ensures c in s.phase.flipped
        {
          assert c in CascadeIds(s.db) && !ContainerActive(s.db, c);
        }
      }
    case _ =>
  }

  /** Registrations and setters write neither containers nor panes. */
  lemma {:induction false} TablesKept(s: State, step: Step)
    requires !Quiet(step) && !step.CommitScan?
    ensures Apply(s, step).db.containers == s.db.containers && Apply(s, step).db.panes == s.db.panes
    ensures Apply(s, step).phase == s.phase
  {
  }

  lemma {:induction false} StepReads(s: State, step: Step)
    requires Readings(s)
    ensures Readings(Apply(s, step))
  {
    if Quiet(step) {
      QueriesRead(s, step);
    } else if !step.CommitScan? {
      TablesKept(s, step);
      SameTables(s, Apply(s, step));
    }
  }

  lemma {:induction false} SameTables(s: State, s': State)
    requires Readings(s) && s'.phase == s.phase && s'.db.containers == s.db.containers && s'.db.panes == s.db.panes
    ensures Readings(s')
  {
  }

  lemma {:induction false} RunReads(db: Db, steps: seq<Step>)
    ensures Readings(Run(db, steps))
  {
    if steps != [] {
      RunReads(db, steps[..|steps| - 1]);
      StepReads(Run(db, steps[..|steps| - 1]), steps[|steps| - 1]);
    }
  }

  /**
  In every interleaving the pane rows a scan decided on are the rows its commit finds, so what its counters say of
  those rows they say of the commit: they balance exactly when as many upserts count a key again as rows are
  inactivated twice.
  */
  lemma {:induction false} CountersDescribeCommit(db: Db, steps: seq<Step>, o: Observed, ws: WriteSet, now: string)
    requires Reconciled(Run(db, steps).phase, o, ws)
    ensures var before, after := Run(db, steps).db.panes, Apply(Run(db, steps), CommitScan(o, ws, now)).db.panes;
            |ActiveKeys(after)| == |ActiveKeys(before)| + ws.newlyActive - ws.reconciledInactive
            <==> Recounted(before, ws) == |TwiceKeys(before, o)|
  {
    RunReads(db, steps);
    CountersBalanceIff(Run(db, steps).db.panes, o, ws, now);
  }

  /** And a scan's promise to reconciliation fails at most for containers that went inactive between its first two queries. */
  lemma {:induction false} OnlyFlippedCascade(db: Db, steps: seq<Step>, o: Observed, ws: WriteSet, scope: Scope)
    requires Reconciled(Run(db, steps).phase, o, ws) && scope in o.results.items && scope.container in o.cascade
    ensures scope.container in Run(db, steps).phase.flipped
  {
    RunReads(db, steps);
  }

  /** What the scan loops hand over for the containers read is what the commit step admits. */
  lemma {:induction false} LoopsReconcile(cs: seq<PaneScan.ActiveContainer>, now: string, p: Phase, o: Observed, ws: WriteSet)
    requires p.ReadPrior? && PaneScan.Gathered(cs, now, o) && o.Valid() && o.cascade == p.cascade
    requires (forall c :: c in cs ==> c.id in p.active) && Decides(PriorOf(p.prior), o, ws)
    ensures Reconciled(p, o, ws)
  {
    forall scope | scope in o.results.items
      ensures scope.container in p.active
    {
      PaneScan.ResultsAt(cs, scope);
      var c :| c in cs && scope in PaneScan.OutcomesOf(c).items;
      PaneScan.UnavailableMeansFailed(c, scope);
    }
  }
}
