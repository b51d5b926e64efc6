/** From a target revision to a branch: the first branch whose history contains a commit,
    found by walking each branch's history in turn. */
module Revision {
  import opened Text

  type Hash = string

  /** The commits at hand, each with its parents.  A parent need not be at hand. */
  type Commits = map<Hash, seq<Hash>>

  datatype Ref = Ref(name: string, hash: Hash)

  // ----- Reachability -----

  /** A walk from a commit to another along parent edges, through commits at hand. */
  ghost predicate Walk(commits: Commits, path: seq<Hash>) {
    && path != []
    && (forall i :: 0 <= i < |path| - 1 ==> path[i] in commits && path[i + 1] in commits[path[i]])
  }

  ghost predicate Reaches(commits: Commits, from: Hash, to: Hash) {
    exists path :: Walk(commits, path) && path[0] == from && path[|path| - 1] == to
  }

  /** Some history of the commit is not at hand. */
  ghost predicate Broken(commits: Commits, from: Hash) {
    exists h :: Reaches(commits, from, h) && h !in commits
  }

  lemma ReachesSelf(commits: Commits, h: Hash)
    ensures Reaches(commits, h, h)
  {
    assert Walk(commits, [h]);
  }

  lemma ReachesParent(commits: Commits, from: Hash, h: Hash, parent: Hash)
    requires Reaches(commits, from, h) && h in commits && parent in commits[h]
    ensures Reaches(commits, from, parent)
  {
    var path :| Walk(commits, path) && path[0] == from && path[|path| - 1] == h;
    var longer := path + [parent];
    assert Walk(commits, longer) && longer[0] == from && longer[|longer| - 1] == parent;
  }

  /** A set that contains the start and every parent contains whatever is reached. */
  lemma {:induction false} ClosedContains(commits: Commits, seen: set<Hash>, path: seq<Hash>)
    requires Walk(commits, path) && path[0] in seen
    requires forall h, p :: h in seen && h in commits && p in commits[h] ==> p in seen
    ensures path[|path| - 1] in seen
  {
    if |path| > 1 {
      assert path[1] in commits[path[0]];
      ClosedContains(commits, seen, path[1..]);
    }
  }

  // ----- The walk over a branch's history -----

  datatype Found = Yes | No | Error

  function Unseen(hashes: seq<Hash>, seen: set<Hash>): (r: seq<Hash>)
    ensures forall h :: h in r <==> h in hashes && h !in seen
  {
    if hashes == [] then []
    else (if hashes[0] in seen then [] else [hashes[0]]) + Unseen(hashes[1..], seen)
  }

  /** The log of a commit, in preorder with a seen set, stopped at the target.  A commit
      that is not at hand ends the walk with an error. */
  method LogContains(commits: Commits, from: Hash, target: Hash) returns (found: Found)
    ensures found.Yes? ==> Reaches(commits, from, target) && target in commits
    ensures found.No? ==> !Reaches(commits, from, target) && !Broken(commits, from)
    ensures found.Error? ==> Broken(commits, from)
  {
    var pending, seen := [from], {};
    ReachesSelf(commits, from);
    while pending != []
      invariant forall h :: h in pending ==> Reaches(commits, from, h)
      invariant seen <= commits.Keys && target !in seen
      invariant from in seen || from in pending
      invariant forall h, p :: h in seen && p in commits[h] ==> p in seen || p in pending
      decreases commits.Keys - seen, |pending|
    {
      var c, rest := pending[0], pending[1..];
      assert pending == [c] + rest;
      if c !in commits {
        return Error;
      }
      if c in seen {
        pending := rest;
      } else if c == target {
        return Yes;
      } else {
        forall p | p in commits[c] ensures Reaches(commits, from, p) {
          ReachesParent(commits, from, c, p);
        }
        seen := seen + {c};
        pending := Unseen(commits[c], seen) + rest;
      }
    }
    forall h | Reaches(commits, from, h) ensures h in seen {
      var path :| Walk(commits, path) && path[0] == from && path[|path| - 1] == h;
      ClosedContains(commits, seen, path);
    }
    found := No;
  }

  // ----- The first branch -----

  datatype Branch = Branch(name: string) | NoBranch | Failed

  /** The specification of the search: the first branch in order whose history contains the
      commit, unless the history of an earlier one is broken. */
  ghost predicate FirstContaining(commits: Commits, branches: seq<Ref>, target: Hash, i: nat) {
    && i < |branches|
    && Reaches(commits, branches[i].hash, target) && target in commits
    && (forall j :: 0 <= j < i ==>
          !Reaches(commits, branches[j].hash, target) && !Broken(commits, branches[j].hash))
  }

  ghost predicate FirstBranch(commits: Commits, branches: seq<Ref>, target: Hash, name: string) {
    exists i: nat :: FirstContaining(commits, branches, target, i) && branches[i].name == name
  }

  ghost predicate Complete(commits: Commits, branches: seq<Ref>) {
    forall b :: b in branches ==> !Broken(commits, b.hash)
  }

  /** There is at most one such branch, and on a complete history there is one exactly when
      the head of some branch reaches the commit. */
  lemma FirstBranchIff(commits: Commits, branches: seq<Ref>, target: Hash)
    ensures forall a, b :: FirstBranch(commits, branches, target, a) && FirstBranch(commits, branches, target, b) ==> a == b
    ensures Complete(commits, branches) ==>
      ((exists b :: FirstBranch(commits, branches, target, b))
       <==> exists r :: r in branches && Reaches(commits, r.hash, target))
  {
    forall a, b | FirstBranch(commits, branches, target, a) && FirstBranch(commits, branches, target, b) ensures a == b {
      var i: nat :| FirstContaining(commits, branches, target, i) && branches[i].name == a;
      var j: nat :| FirstContaining(commits, branches, target, j) && branches[j].name == b;
      assert i == j;
    }
    if r :| r in branches && Reaches(commits, r.hash, target) && Complete(commits, branches) {
      var k :| 0 <= k < |branches| && branches[k] == r;
      var i := Earliest(commits, branches, target, k);
      assert branches[i] in branches && !Broken(commits, branches[i].hash);
      assert FirstContaining(commits, branches, target, i);
      assert FirstBranch(commits, branches, target, branches[i].name);
    }
    if b :| FirstBranch(commits, branches, target, b) {
      var i: nat :| FirstContaining(commits, branches, target, i) && branches[i].name == b;
      assert branches[i] in branches;
    }
  }

  lemma {:induction false} Earliest(commits: Commits, branches: seq<Ref>, target: Hash, k: nat) returns (i: nat)
    requires k < |branches| && Reaches(commits, branches[k].hash, target)
    requires Complete(commits, branches)
    ensures FirstContaining(commits, branches, target, i)
  {
    if j: nat :| j < k && Reaches(commits, branches[j].hash, target) {
      i := Earliest(commits, branches, target, j);
    } else {
      i := k;
      assert branches[k] in branches;
    }
  }

  method FindFirstBranchContaining(commits: Commits, branches: seq<Ref>, target: Hash) returns (r: Branch)
    ensures r.Branch? ==> FirstBranch(commits, branches, target, r.name)
    ensures r.NoBranch? ==>
      forall b :: b in branches ==> !Reaches(commits, b.hash, target) && !Broken(commits, b.hash)
    ensures r.Failed? ==> !Complete(commits, branches)
    ensures Complete(commits, branches) && !r.Branch? ==> forall b :: !FirstBranch(commits, branches, target, b)
    ensures r.Branch? ==> forall b :: FirstBranch(commits, branches, target, b) <==> b == r.name
  {
    FirstBranchIff(commits, branches, target);
    for i := 0 to |branches|
      invariant forall j :: 0 <= j < i ==>
        !Reaches(commits, branches[j].hash, target) && !Broken(commits, branches[j].hash)
    {
      var found := LogContains(commits, branches[i].hash, target);
      match found {
        case Error =>
          assert branches[i] in branches;
          return Failed;
        case Yes =>
          assert FirstContaining(commits, branches, target, i);
          return Branch(branches[i].name);
        case No =>
      }
    }
    r := NoBranch;
  }

  // ----- Checkout -----

  datatype Head = OnBranch(name: string) | Detached(hash: Hash)

  datatype Refs = Refs(commits: Commits, branches: seq<Ref>, tags: map<string, Hash>)

  predicate HasBranch(refs: Refs, name: string) {
    exists b :: b in refs.branches && b.name == name
  }

  /** The first branch that contains a commit. */
  ghost predicate First(refs: Refs, target: Hash, name: string) {
    FirstBranch(refs.commits, refs.branches, target, name)
  }

  /** A tag is usable when it refers to a commit directly; a tag object does not. */
  ghost predicate TagOn(refs: Refs, refName: string, name: string) {
    refName in refs.tags && refs.tags[refName] in refs.commits && First(refs, refs.tags[refName], name)
  }

  /** Branch first, then tag, then commit; `commit` is the reading of the name as a hash. */
  ghost predicate Chosen(refs: Refs, refName: string, commit: Hash, name: string) {
    if HasBranch(refs, refName) then name == refName
    else if exists b :: TagOn(refs, refName, b) then TagOn(refs, refName, name)
    else First(refs, commit, name)
  }

  /** The named branch, or one that contains the tag or the commit. */
  ghost predicate Serves(refs: Refs, refName: string, commit: Hash, name: string) {
    (HasBranch(refs, refName) && name == refName) || TagOn(refs, refName, name) || First(refs, commit, name)
  }

  ghost predicate AllAtHand(refs: Refs) {
    Complete(refs.commits, refs.branches)
  }

  method FindFirstBranchContainingTag(refs: Refs, tagName: string) returns (r: Branch)
    ensures r.Branch? ==> forall b :: TagOn(refs, tagName, b) <==> b == r.name
    ensures AllAtHand(refs) && !r.Branch? ==> forall b :: !TagOn(refs, tagName, b)
  {
    if tagName !in refs.tags {
      return NoBranch;
    }
    if refs.tags[tagName] !in refs.commits {
      return Failed;
    }
    r := FindFirstBranchContaining(refs.commits, refs.branches, refs.tags[tagName]);
  }

  method FindFirstBranchContainingCommit(refs: Refs, commit: Hash) returns (r: Branch)
    ensures r.Branch? ==> forall b :: First(refs, commit, b) <==> b == r.name
    ensures AllAtHand(refs) && !r.Branch? ==> forall b :: !First(refs, commit, b)
  {
    r := FindFirstBranchContaining(refs.commits, refs.branches, commit);
  }

  /** The branch to check out: the name as a branch, then as a tag, then as a commit. */
  method Choose(refs: Refs, refName: string, commit: Hash) returns (r: Branch)
    ensures r.Branch? ==> Serves(refs, refName, commit, r.name)
    ensures AllAtHand(refs) ==>
      forall b :: Chosen(refs, refName, commit, b) <==> r == Branch(b)
    ensures HasBranch(refs, refName) ==> r == Branch(refName)
    ensures AllAtHand(refs) && !HasBranch(refs, refName) ==>
      forall b :: TagOn(refs, refName, b) ==> r == Branch(b)
    ensures AllAtHand(refs) && !HasBranch(refs, refName) && (forall b :: !TagOn(refs, refName, b)) ==>
      forall b :: First(refs, commit, b) ==> r == Branch(b)
  {
    if HasBranch(refs, refName) {
      return Branch(refName);
    }
    r := FindFirstBranchContainingTag(refs, refName);
    if r.Branch? {
      assert TagOn(refs, refName, r.name);
    } else {
      r := FindFirstBranchContainingCommit(refs, commit);
      assert r.Branch? ==> First(refs, commit, r.name);
    }
  }

  class Repository {
    var head: Head
    var refs: Refs
    /** Branches whose checkout the worktree refuses, before or after it moves the head. */
    const refused: set<string>
    const headFirst: bool
    /** The reading of arbitrary text as a commit hash. */
    const newHash: string -> Hash

    constructor (head: Head, refs: Refs, refused: set<string>, headFirst: bool, newHash: string -> Hash)
      ensures this.head == head && this.refs == refs && this.newHash == newHash
      ensures this.refused == refused && this.headFirst == headFirst
    {
      this.head, this.refs, this.newHash := head, refs, newHash;
      this.refused, this.headFirst := refused, headFirst;
    }

    method Checkout(branch: string) returns (ok: bool)
      modifies this`head
      ensures ok <==> branch !in refused
      ensures head == if ok || headFirst then OnBranch(branch) else old(head)
    {
      ok := branch !in refused;
      if ok || headFirst {
        head := OnBranch(branch);
      }
    }

    /** The head moves, if at all, to the named branch or to the first one containing the
        target.  When all history is at hand, the choice is exactly branch, then tag, then
        commit, and the checkout succeeds if and only if there is a choice that the
        worktree does not refuse. */
    method CheckoutRepo(refName: string) returns (ok: bool)
      modifies this`head
      ensures ok ==> head.OnBranch?
      ensures ok || head != old(head) ==> head.OnBranch? && Serves(refs, refName, newHash(refName), head.name)
      ensures !ok && !headFirst ==> head == old(head)
      ensures HasBranch(refs, refName) && refName !in refused ==> ok && head == OnBranch(refName)
      ensures AllAtHand(refs) && !HasBranch(refs, refName) ==>
        forall b :: TagOn(refs, refName, b) && b !in refused ==> ok && head == OnBranch(b)
      ensures AllAtHand(refs) && (ok || head != old(head)) ==> Chosen(refs, refName, newHash(refName), head.name)
      ensures AllAtHand(refs) && !ok ==> forall b :: Chosen(refs, refName, newHash(refName), b) ==> b in refused
    {
      var r := Choose(refs, refName, newHash(refName));
      ok := false;
      if r.Branch? {
        ok := Checkout(r.name);
      }
    }

    /** The checkout decision of fetchUpdates: nothing is fetched or checked out when the
        head is on the target branch already; nothing is fetched for main and master; and
        when all history is at hand the head ends on the choice, unless there is none, the
        fetch failed or the worktree refuses it. */
    method FetchUpdates(target: string, fetched: Option<Refs>) returns (ok: bool)
      modifies this
      ensures ok || head != old(head) ==>
        head.OnBranch? && (head.name == target || Serves(refs, target, newHash(target), head.name))
      ensures old(head) == OnBranch(target) ==> ok && head == old(head) && refs == old(refs)
      ensures old(head) != OnBranch(target) && target !in {"main", "master"} ==>
        (ok ==> fetched == Some(refs)) && (fetched.None? ==> !ok)
      ensures target in {"main", "master"} ==> refs == old(refs)
      ensures old(head) != OnBranch(target) && AllAtHand(refs) && (ok || head != old(head)) ==>
        head.OnBranch? && Chosen(refs, target, newHash(target), head.name)
      ensures old(head) != OnBranch(target) && AllAtHand(refs) && !ok ==>
        || (target !in {"main", "master"} && fetched.None? && head == old(head) && refs == old(refs))
        || forall b :: Chosen(refs, target, newHash(target), b) ==> b in refused
      ensures !ok && !headFirst ==> head == old(head)
    {
      if head == OnBranch(target) {
        return true;
      }
      if target != "main" && target != "master" {
        match fetched {
          case None => return false;
          case Some(r) => refs := r;
        }
      }
      ok := CheckoutRepo(target);
    }
  }
}
