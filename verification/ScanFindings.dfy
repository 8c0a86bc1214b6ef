/** What one scan reports of the containers it asked, query by query: when it stops, what failed, what it counts. */
module ScanFindings {
  import opened OrderedDicts
  import opened Panes
  import opened PaneScan
  import opened ScanErrors

  // Which containers

  lemma {:induction false} SelectedIff(cs: seq<ActiveContainer>, filter: Option<string>, c: ActiveContainer)
    ensures c in Selected(cs, filter) <==> c in cs && (filter.Some? ==> c.id == filter.value)
    ensures filter.None? ==> Selected(cs, filter) == cs
    ensures |Selected(cs, filter)| <= |cs|
  {
    if cs != [] {
      SelectedIff(cs[..|cs| - 1], filter, c);
      assert cs == cs[..|cs| - 1] + [cs[|cs| - 1]];
    }
  }

  lemma {:induction false} SelectedIdsIff(ids: set<string>, filter: Option<string>, id: string)
    ensures id in SelectedIds(ids, filter) <==> id in ids && (filter.Some? ==> id == filter.value)
  {
  }

  // One container

  /** A bench user is configured, and Docker told its user id and its sockets. */
  predicate Asked(c: ActiveContainer) {
    c.benchUser.Some? && c.benchUser.value != "" && c.uid.Got? && c.listing.Got?
  }

  /** The scan stops at a container exactly when the first of its queries to raise found Docker gone, or some socket's did. */
  lemma {:induction false} StopsIff(c: ActiveContainer)
    ensures Aborts(c) <==>
            && c.benchUser.Some? && c.benchUser.value != ""
            && if c.uid.Raised? then c.uid.code == DockerUnavailable
               else if c.listing.Raised? then c.listing.code == DockerUnavailable
               else exists s :: s in c.listing.value && s.panes.Raised? && s.panes.code == DockerUnavailable
  {
    if Asked(c) && AnyGone(c.listing.value) {
      var s :| s in c.listing.value && DockerGone(s.panes);
      assert s.panes.Raised? && s.panes.code == DockerUnavailable;
    }
  }

  /** A query of a socket gave panes: all of them, or those before the malformed output. */
  predicate GavePanes(r: Reply<seq<ParsedPane>>) {
    r.Got? || (r.code == OutputMalformed && |r.partial| > 0)
  }

  /** No tmux: the container could not be asked, or it has sockets and none of them gave panes. */
  lemma {:induction false} UnavailableIff(cs: seq<ActiveContainer>, id: string)
    ensures id in UnavailableOf(cs) <==> exists c :: c in cs && c.id == id && NoTmux(c)
  {
    forall c | c in cs
      ensures TmuxUnavailable(c) <==> NoTmux(c)
    {
      NoTmuxIff(c);
    }
  }

  predicate NoTmux(c: ActiveContainer) {
    !Asked(c) || (|c.listing.value| > 0 && forall s :: s in c.listing.value ==> !GavePanes(s.panes))
  }

  lemma {:induction false} NoTmuxIff(c: ActiveContainer)
    ensures TmuxUnavailable(c) <==> NoTmux(c)
  {
    if Asked(c) {
      forall s | s in c.listing.value
        ensures OutcomeOf(s.panes).FailedScan? <==> !GavePanes(s.panes)
      {
      }
    }
  }

  /** What a container's failed query is reported as. */
  ghost predicate FailedAs(c: ActiveContainer, f: Failure) {
    if c.benchUser.None? || c.benchUser.value == "" then f == Failure(c.id, None, BenchUserUnresolved)
    else if c.uid.Raised? then f == Failure(c.uid.container, c.uid.socket, c.uid.code)
    else if c.listing.Raised? then f == Failure(c.listing.container, c.listing.socket, c.listing.code)
    else exists s :: s in c.listing.value && SocketFailedAs(c.uid.value, s, f)
  }

  ghost predicate SocketFailedAs(uid: string, s: SocketReply, f: Failure) {
    s.panes.Raised? && f == Failure(s.panes.container, Some("/tmp/tmux-" + uid + "/" + s.name), s.panes.code)
  }

  lemma {:induction false} FailuresAmongAre(id: string, uid: string, ss: seq<SocketReply>, f: Failure)
    ensures f in FailuresAmong(id, uid, ss) <==> exists s :: s in ss && SocketFailedAs(uid, s, f)
    ensures |FailuresAmong(id, uid, ss)| <= |ss|
  {
    if ss != [] {
      var front, last := ss[..|ss| - 1], ss[|ss| - 1];
      FailuresAmongAre(id, uid, front, f);
      assert ss == front + [last];
      assert f in FailureAt(ScopeAt(id, uid, last), last.panes) <==> SocketFailedAs(uid, last, f);
      assert last in ss;
    }
  }

  lemma {:induction false} FailuresOfAre(c: ActiveContainer, f: Failure)
    ensures f in FailuresOf(c) <==> FailedAs(c, f)
  {
    if Asked(c) {
      FailuresAmongAre(c.id, c.uid.value, c.listing.value, f);
    }
  }

  // The whole scan

  /** A failure is reported exactly when a query of a container scanned failed as it says. */
  lemma {:induction false} ReportedIff(cs: seq<ActiveContainer>, f: Failure)
    ensures f in CountsOf(cs).failures <==> exists c :: c in cs && FailedAs(c, f)
  {
    if cs != [] {
      var front, last := cs[..|cs| - 1], cs[|cs| - 1];
      ReportedIff(front, f);
      FailuresOfAre(last, f);
      assert cs == front + [last];
      assert last in cs;
    }
  }

  predicate Sum(a: Counts, b: Counts, sum: Counts) {
    sum.containers == a.containers + b.containers && sum.sockets == a.sockets + b.sockets && sum.failures == a.failures + b.failures
  }

  lemma {:induction false} SumWith(a: Counts, b: Counts, sum: Counts, c: ActiveContainer)
    requires Sum(a, b, sum)
    ensures Sum(a, WithCounts(b, c), WithCounts(sum, c))
  {
    var more := FailuresOf(c);
    assert (a.failures + b.failures) + more == a.failures + (b.failures + more);
  }

  /** The counts of two stretches of containers add up, their failures in order. */
  lemma {:induction false} CountsAdd(cs: seq<ActiveContainer>, ds: seq<ActiveContainer>)
    ensures Sum(CountsOf(cs), CountsOf(ds), CountsOf(cs + ds))
    decreases |ds|
  {
    if ds == [] {
      assert cs + ds == cs;
    } else {
      var front, last, all := ds[..|ds| - 1], ds[|ds| - 1], cs + ds;
      CountsAdd(cs, front);
      assert all[..|all| - 1] == cs + front && all[|all| - 1] == last;
      SumWith(CountsOf(cs), CountsOf(front), CountsOf(cs + front), last);
    }
  }

  /** A container counts when it has a bench user; its sockets count when they could be listed. */
  lemma {:induction false} CountsOfOne(c: ActiveContainer)
    ensures CountsOf([c]).containers == if c.benchUser.Some? && c.benchUser.value != "" then 1 else 0
    ensures CountsOf([c]).sockets == if Asked(c) then |c.listing.value| else 0
    ensures forall f :: f in CountsOf([c]).failures <==> FailedAs(c, f)
    ensures CountsOf([]) == Counts(0, 0, [])
  {
    assert [c][..0] == [];
    assert CountsOf([c]) == WithCounts(CountsOf([]), c);
    forall f
      ensures f in CountsOf([c]).failures <==> FailedAs(c, f)
    {
      FailuresOfAre(c, f);
    }
  }
}
