/** A Git repository as a finite commit graph: trees, ancestry, and what `merge-base` reports. Every commit carries its
    generation number, larger than its parents', so that the graph is acyclic. */
module CommitGraph {
  type Sha = string
  type Path = string
  type Blob = string

  datatype Commit = Commit(parents: seq<Sha>, generation: nat, tree: map<Path, Blob>, subject: string)

  ghost predicate Acyclic(repo: map<Sha, Commit>) {
    forall c <- repo :: forall i | 0 <= i < |repo[c].parents| ::
      repo[c].parents[i] in repo && repo[repo[c].parents[i]].generation < repo[c].generation
  }

  type Repo = repo: map<Sha, Commit> | Acyclic(repo) witness map[]

  ghost predicate Ancestor(repo: Repo, a: Sha, d: Sha)
    requires d in repo
    decreases repo[d].generation
  {
    a == d || exists i | 0 <= i < |repo[d].parents| :: Ancestor(repo, a, repo[d].parents[i])
  }

  lemma {:induction false} AncestorIsOlder(repo: Repo, a: Sha, d: Sha)
    requires d in repo && Ancestor(repo, a, d)
    ensures a in repo && repo[a].generation <= repo[d].generation
    ensures a == d || repo[a].generation < repo[d].generation
    decreases repo[d].generation
  {
    if a != d {
      var i :| 0 <= i < |repo[d].parents| && Ancestor(repo, a, repo[d].parents[i]);
      AncestorIsOlder(repo, a, repo[d].parents[i]);
    }
  }

  lemma {:induction false} AncestorTransitive(repo: Repo, a: Sha, b: Sha, c: Sha)
    requires b in repo && c in repo && Ancestor(repo, a, b) && Ancestor(repo, b, c)
    ensures Ancestor(repo, a, c)
    decreases repo[c].generation
  {
    if b != c {
      var i :| 0 <= i < |repo[c].parents| && Ancestor(repo, b, repo[c].parents[i]);
      AncestorTransitive(repo, a, b, repo[c].parents[i]);
    }
  }

  lemma ParentIsAncestor(repo: Repo, c: Sha, i: nat)
    requires c in repo && i < |repo[c].parents|
    ensures Ancestor(repo, repo[c].parents[i], c)
  {
    var p := repo[c].parents[i];
    assert Ancestor(repo, p, p);
  }

  lemma AncestorAntisymmetric(repo: Repo, a: Sha, b: Sha)
    requires a in repo && b in repo && Ancestor(repo, a, b) && Ancestor(repo, b, a)
    ensures a == b
  {
    AncestorIsOlder(repo, a, b);
    AncestorIsOlder(repo, b, a);
  }

  // ---- Maximal and greatest commits of a set ----

  ghost predicate Maximal(repo: Repo, s: set<Sha>, m: Sha)
    requires s <= repo.Keys
  {
    m in s && forall x <- s :: Ancestor(repo, m, x) ==> x == m
  }

  ghost predicate Greatest(repo: Repo, s: set<Sha>, g: Sha)
    requires s <= repo.Keys
  {
    g in s && forall x <- s :: Ancestor(repo, x, g)
  }

  /** `git merge-base --independent`: the commits of s that no other commit of s contains. */
  ghost function Independent(repo: Repo, s: set<Sha>): set<Sha>
    requires s <= repo.Keys
  {
    set m | m in s && Maximal(repo, s, m)
  }

  ghost function Common(repo: Repo, a: Sha, b: Sha): set<Sha>
    requires a in repo && b in repo
  {
    set c | c in repo && Ancestor(repo, c, a) && Ancestor(repo, c, b)
  }

  /** `git merge-base --all`: the best common ancestors. */
  ghost function MergeBases(repo: Repo, a: Sha, b: Sha): set<Sha>
    requires a in repo && b in repo
  {
    Independent(repo, Common(repo, a, b))
  }

  /** Above every commit of a finite set lies a maximal one. */
  lemma {:induction false} MaximalAbove(repo: Repo, s: set<Sha>, x: Sha) returns (m: Sha)
    requires s <= repo.Keys && x in s
    ensures Maximal(repo, s, m) && Ancestor(repo, x, m)
    decreases s
  {
    if Maximal(repo, s, x) { return x; }
    var y :| y in s && Ancestor(repo, x, y) && y != x;
    m := MaximalAbove(repo, s - {x}, y);
    AncestorTransitive(repo, x, y, m);
    if Ancestor(repo, m, x) {
      AncestorAntisymmetric(repo, m, x);
    }
  }

  lemma GreatestIsUniqueMaximum(repo: Repo, s: set<Sha>, g: Sha)
    requires s <= repo.Keys
    ensures Greatest(repo, s, g) <==> Independent(repo, s) == {g}
  {
    if Greatest(repo, s, g) {
      forall m | m in s ensures Maximal(repo, s, m) <==> m == g {
        forall x | x in s && Ancestor(repo, g, x) ensures x == g {
          AncestorAntisymmetric(repo, g, x);
        }
      }
    }
    if Independent(repo, s) == {g} {
      assert g in Independent(repo, s);
      forall x | x in s ensures Ancestor(repo, x, g) {
        var m := MaximalAbove(repo, s, x);
        assert m in Independent(repo, s);
      }
    }
  }

  /** When one commit contains the other, it is their only merge base; otherwise it never is one. */
  lemma MergeBaseOfAncestor(repo: Repo, base: Sha, head: Sha)
    requires base in repo && head in repo
    ensures base in MergeBases(repo, base, head) <==> Ancestor(repo, base, head)
    ensures Ancestor(repo, base, head) ==> MergeBases(repo, base, head) == {base}
  {
    if Ancestor(repo, base, head) {
      var s := Common(repo, base, head);
      assert Greatest(repo, s, base);
      GreatestIsUniqueMaximum(repo, s, base);
    }
  }
}
