/** Where the task work of a checkout begins, from the integration tips recorded locally. */
module TaskBaseline {
  import opened Options
  import opened CommitGraph

  datatype Baseline = Baseline(integration: bool, taskBase: Option<Sha>)

  function IntegrationNames(primary: Option<string>, configured: seq<string>): set<string> {
    (if primary.Some? then {primary.value} else {}) + {"main"} + (set n | n in configured)
  }

  function WantedRefs(names: set<string>): set<string> {
    (set n | n in names :: "refs/heads/" + n) + (set n | n in names :: "refs/remotes/origin/" + n)
  }

  ghost predicate Resolves(repo: Repo, refs: map<string, Sha>) {
    forall r <- refs :: refs[r] in repo
  }

  function Tips(refs: map<string, Sha>, names: set<string>): set<Sha> {
    set r | r in WantedRefs(names) && r in refs :: refs[r]
  }

  ghost function Bases(repo: Repo, head: Sha, tips: set<Sha>): set<Sha>
    requires head in repo && tips <= repo.Keys
  {
    set t, b | t in tips && b in MergeBases(repo, head, t) :: b
  }

  /** Commits that HEAD shares with some integration tip. */
  ghost function SharedWork(repo: Repo, head: Sha, tips: set<Sha>): set<Sha>
    requires head in repo && tips <= repo.Keys
  {
    set t, c | t in tips && c in Common(repo, head, t) :: c
  }

  lemma TipsResolve(repo: Repo, refs: map<string, Sha>, names: set<string>)
    requires Resolves(repo, refs)
    ensures Tips(refs, names) <= repo.Keys
  {
  }

  ghost function TaskBaseline(repo: Repo, refs: map<string, Sha>, branch: Option<string>, head: Sha,
                              primary: Option<string>, configured: seq<string>): Baseline
    requires head in repo && Resolves(repo, refs)
  {
    var names := IntegrationNames(primary, configured);
    if branch.Some? && branch.value in names then Baseline(true, None) else
      TipsResolve(repo, refs, names);
      var bases := Bases(repo, head, Tips(refs, names));
      if bases == {} then Baseline(false, None)
      else if head in bases then Baseline(false, Some(head))
      else
        var nearest := Independent(repo, bases);
        Baseline(false, if |nearest| == 1 then (var b :| b in nearest; Some(b)) else None)
  }

  lemma BasesLieAboveSharedWork(repo: Repo, head: Sha, tips: set<Sha>, c: Sha) returns (b: Sha)
    requires head in repo && tips <= repo.Keys && c in SharedWork(repo, head, tips)
    ensures b in Bases(repo, head, tips) && Ancestor(repo, c, b)
  {
    var t :| t in tips && c in Common(repo, head, t);
    b := MaximalAbove(repo, Common(repo, head, t), c);
    assert b in MergeBases(repo, head, t);
  }

  /** The merge bases have the greatest elements that all the shared work has. */
  lemma BasesShareGreatest(repo: Repo, head: Sha, tips: set<Sha>, g: Sha)
    requires head in repo && tips <= repo.Keys
    ensures Bases(repo, head, tips) <= SharedWork(repo, head, tips) <= repo.Keys
    ensures Greatest(repo, Bases(repo, head, tips), g) <==> Greatest(repo, SharedWork(repo, head, tips), g)
  {
    var bases, shared := Bases(repo, head, tips), SharedWork(repo, head, tips);
    forall c | c in shared ensures Ancestor(repo, c, head) && exists b <- bases :: Ancestor(repo, c, b) {
      var b := BasesLieAboveSharedWork(repo, head, tips, c);
    }
    if Greatest(repo, bases, g) {
      forall c | c in shared ensures Ancestor(repo, c, g) {
        var b :| b in bases && Ancestor(repo, c, b);
        AncestorTransitive(repo, c, b, g);
      }
    }
    if Greatest(repo, shared, g) {
      var b :| b in bases && Ancestor(repo, g, b);
      AncestorAntisymmetric(repo, g, b);
    }
  }

  lemma HeadAmongBases(repo: Repo, head: Sha, tips: set<Sha>)
    requires head in repo && tips <= repo.Keys
    ensures head in Bases(repo, head, tips) <==> Greatest(repo, SharedWork(repo, head, tips), head)
    ensures head in Bases(repo, head, tips) <==> exists t <- tips :: Ancestor(repo, head, t)
  {
    BasesShareGreatest(repo, head, tips, head);
    if exists t <- tips :: Ancestor(repo, head, t) {
      var t :| t in tips && Ancestor(repo, head, t);
      assert head in Common(repo, head, t);
      var b := BasesLieAboveSharedWork(repo, head, tips, head);
      AncestorAntisymmetric(repo, head, b);
    }
  }

  /** Off the integration branches, the baseline is exactly the greatest commit shared with the integration tips, when
      there is one: HEAD itself when a tip contains it, nothing when the shared work has no single latest commit. */
  lemma BaselineIsLatestSharedCommit(repo: Repo, refs: map<string, Sha>, branch: Option<string>, head: Sha,
                                     primary: Option<string>, configured: seq<string>, g: Sha)
    requires head in repo && Resolves(repo, refs)
    ensures var names := IntegrationNames(primary, configured);
            var result := TaskBaseline(repo, refs, branch, head, primary, configured);
            var shared := SharedWork(repo, head, Tips(refs, names));
            && (result.integration <==> branch.Some? && branch.value in names)
            && (result.integration ==> result.taskBase == None)
            && shared <= repo.Keys
            && (!result.integration ==> (result.taskBase == Some(g) <==> Greatest(repo, shared, g)))
            && (!result.integration && (exists t <- Tips(refs, names) :: Ancestor(repo, head, t)) ==> result.taskBase == Some(head))
  {
    var names := IntegrationNames(primary, configured);
    var tips := Tips(refs, names);
    TipsResolve(repo, refs, names);
    HeadAmongBases(repo, head, tips);
    if head in Bases(repo, head, tips) {
      HeadIsBaseline(repo, head, tips, g);
    } else {
      SoleMaximumIsBaseline(repo, head, tips, g);
    }
  }

  lemma HeadIsBaseline(repo: Repo, head: Sha, tips: set<Sha>, g: Sha)
    requires head in repo && tips <= repo.Keys && head in Bases(repo, head, tips)
    ensures SharedWork(repo, head, tips) <= repo.Keys
    ensures Greatest(repo, SharedWork(repo, head, tips), g) <==> g == head
  {
    HeadAmongBases(repo, head, tips);
    BasesShareGreatest(repo, head, tips, g);
    UniqueGreatest(repo, SharedWork(repo, head, tips), head, g);
  }

  lemma SoleMaximumIsBaseline(repo: Repo, head: Sha, tips: set<Sha>, g: Sha)
    requires head in repo && tips <= repo.Keys && head !in Bases(repo, head, tips)
    ensures SharedWork(repo, head, tips) <= repo.Keys && Bases(repo, head, tips) <= repo.Keys
    ensures var nearest := Independent(repo, Bases(repo, head, tips));
            && (Greatest(repo, SharedWork(repo, head, tips), g) <==> |nearest| == 1 && g in nearest)
            && (|nearest| == 1 ==> forall x, y | x in nearest && y in nearest :: x == y)
  {
    var bases := Bases(repo, head, tips);
    BasesShareGreatest(repo, head, tips, g);
    GreatestIsUniqueMaximum(repo, bases, g);
    SingletonChoice(Independent(repo, bases), g);
  }

  lemma UniqueGreatest(repo: Repo, s: set<Sha>, g: Sha, h: Sha)
    requires s <= repo.Keys && Greatest(repo, s, g)
    ensures Greatest(repo, s, h) <==> h == g
  {
    if Greatest(repo, s, h) {
      AncestorAntisymmetric(repo, g, h);
    }
  }

  lemma SingletonChoice(s: set<Sha>, g: Sha)
    ensures s == {g} <==> |s| == 1 && g in s
    ensures |s| == 1 ==> forall x, y | x in s && y in s :: x == y
  {
    if |s| == 1 {
      var x :| x in s;
      assert |s - {x}| == 0;
      assert s == {x};
    }
  }

  // ---- In terms of the references ----

  /** The default branch, main, and the configured ones. */
  predicate Integrates(name: string, primary: Option<string>, configured: seq<string>) {
    primary == Some(name) || name == "main" || name in configured
  }

  /** The tip of an integration branch, here or as last fetched from origin. */
  ghost predicate IntegrationTip(refs: map<string, Sha>, primary: Option<string>, configured: seq<string>, tip: Sha) {
    exists name, ref :: Integrates(name, primary, configured) && ref in refs && refs[ref] == tip
                        && (ref == "refs/heads/" + name || ref == "refs/remotes/origin/" + name)
  }

  /** A commit of HEAD that is in some integration branch too. */
  ghost predicate Shared(repo: Repo, refs: map<string, Sha>, head: Sha, primary: Option<string>, configured: seq<string>, c: Sha)
    requires head in repo && Resolves(repo, refs)
  {
    && c in repo && Ancestor(repo, c, head)
    && exists t :: IntegrationTip(refs, primary, configured, t) && t in repo && Ancestor(repo, c, t)
  }

  lemma TipsAreIntegrationTips(refs: map<string, Sha>, primary: Option<string>, configured: seq<string>, t: Sha)
    ensures t in Tips(refs, IntegrationNames(primary, configured)) <==> IntegrationTip(refs, primary, configured, t)
  {
    var names := IntegrationNames(primary, configured);
    if t in Tips(refs, names) {
      var ref :| ref in WantedRefs(names) && ref in refs && refs[ref] == t;
      var name :| name in names && (ref == "refs/heads/" + name || ref == "refs/remotes/origin/" + name);
      assert Integrates(name, primary, configured);
    }
    if IntegrationTip(refs, primary, configured, t) {
      var name, ref :| Integrates(name, primary, configured) && ref in refs && refs[ref] == t
                       && (ref == "refs/heads/" + name || ref == "refs/remotes/origin/" + name);
      assert name in names && ref in WantedRefs(names);
    }
  }

  lemma SharedIsSharedWork(repo: Repo, refs: map<string, Sha>, head: Sha, primary: Option<string>, configured: seq<string>, c: Sha)
    requires head in repo && Resolves(repo, refs)
    ensures Tips(refs, IntegrationNames(primary, configured)) <= repo.Keys
    ensures c in SharedWork(repo, head, Tips(refs, IntegrationNames(primary, configured))) <==> Shared(repo, refs, head, primary, configured, c)
  {
    var tips := Tips(refs, IntegrationNames(primary, configured));
    TipsResolve(repo, refs, IntegrationNames(primary, configured));
    if c in SharedWork(repo, head, tips) {
      var t :| t in tips && c in Common(repo, head, t);
      TipsAreIntegrationTips(refs, primary, configured, t);
    }
    if Shared(repo, refs, head, primary, configured, c) {
      var t :| IntegrationTip(refs, primary, configured, t) && t in repo && Ancestor(repo, c, t);
      TipsAreIntegrationTips(refs, primary, configured, t);
      assert c in Common(repo, head, t);
    }
  }

  /** The baseline told by the references alone: none on an integration branch, and otherwise the commit shared with the
      local or fetched integration branches that contains all others shared with them, if there is one. */
  lemma BaselineOfReferences(repo: Repo, refs: map<string, Sha>, branch: Option<string>, head: Sha, primary: Option<string>,
                             configured: seq<string>, g: Sha)
    requires head in repo && Resolves(repo, refs)
    ensures var result := TaskBaseline(repo, refs, branch, head, primary, configured);
            && (result.integration <==> branch.Some? && Integrates(branch.value, primary, configured))
            && (result.taskBase == Some(g) <==>
                  && !result.integration && Shared(repo, refs, head, primary, configured, g)
                  && forall c | Shared(repo, refs, head, primary, configured, c) :: Ancestor(repo, c, g))
  {
    BaselineIsLatestSharedCommit(repo, refs, branch, head, primary, configured, g);
    forall c
      ensures c in SharedWork(repo, head, Tips(refs, IntegrationNames(primary, configured))) <==> Shared(repo, refs, head, primary, configured, c)
    {
      SharedIsSharedWork(repo, refs, head, primary, configured, c);
    }
  }
}
