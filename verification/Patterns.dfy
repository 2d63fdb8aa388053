/** Tree patterns and what a match of one is (pkg/bath/matcher.go), on the tree a bubble represents. */
module Patterns {
  import opened Wrappers
  import opened Ledger
  import opened Bubbles

  /** All that the checks and builders of the repository look at: a bubble's info and those of its children. */
  datatype View = View(info: Info, below: seq<Info>)

  /** A builder rewrites the new info and may append accounts to the matched bubble, or fail. */
  datatype Built = Built(info: Info, extra: seq<AccountID>) | BuildFailed

  datatype JettonChange = JettonChange(account: AccountID, master: AccountID, amount: int)

  datatype Straw = Straw(
    checks: seq<View -> bool>,
    builder: Option<(Info, View) -> Built>,
    updater: Option<Info -> seq<JettonChange>>,
    single: Option<Straw>,
    children: seq<Straw>,
    notMerge: bool,
    optional: bool)

  /** A straw with the zero value of the info it builds. */
  datatype Pattern = Pattern(straw: Straw, zero: Info)

  /** One element of a mapping. */
  datatype Hit = Hit(s: Straw, b: Tree)

  function ViewOf(t: Tree): View {
    View(t.rec.info, seq(|t.kids|, i requires 0 <= i < |t.kids| => t.kids[i].rec.info))
  }

  predicate Passes(s: Straw, v: View) {
    forall i | 0 <= i < |s.checks| :: s.checks[i](v)
  }

  /** SingleChild is searched for like the only element of Children. */
  function KidStraws(s: Straw): (ss: seq<Straw>)
    ensures forall i | 0 <= i < |ss| :: ss[i] < s
  {
    if s.single.Some? then [s.single.value] else s.children
  }

  /** A straw with both a single child and children makes the matcher panic. */
  predicate WellFormed(s: Straw)
    decreases s
  {
    && (s.single.Some? ==> s.children == [] && WellFormed(s.single.value))
    && (forall i | 0 <= i < |s.children| :: WellFormed(s.children[i]))
  }

  /** No straw that leaves its bubble in place sits directly under another such straw. */
  predicate NoNested(s: Straw)
    decreases s
  {
    var ss := KidStraws(s);
    forall i | 0 <= i < |ss| :: NoNested(ss[i]) && !(s.notMerge && ss[i].notMerge)
  }

  // ----- the greedy search -----

  function Match(s: Straw, t: Tree): Option<seq<Hit>>
    decreases t, 2, 0
  {
    if t.rec.merged || !Passes(s, ViewOf(t)) then None else
    match MatchKids(KidStraws(s), t, NoneTaken(t))
    case None => None
    case Some(hits) => Some(if s.notMerge then hits else hits + [Hit(s, t)])
  }

  function NoneTaken(t: Tree): seq<bool> {
    seq(|t.kids|, _ => false)
  }

  /** Each straw takes the first child that is still free and matches it. */
  function MatchKids(ss: seq<Straw>, t: Tree, taken: seq<bool>): Option<seq<Hit>>
    requires |taken| == |t.kids|
    decreases t, 1, |ss|
  {
    if ss == [] then Some([]) else
    var i := Find(ss[0], t, taken, 0);
    if i == |t.kids| then
      if ss[0].optional then MatchKids(ss[1..], t, taken) else None
    else
      match MatchKids(ss[1..], t, taken[i := true])
      case None => None
      case Some(rest) => Some(Match(ss[0], t.kids[i]).value + rest)
  }

  function Find(s: Straw, t: Tree, taken: seq<bool>, i: nat): (r: nat)
    requires |taken| == |t.kids| && i <= |t.kids|
    ensures i <= r <= |t.kids|
    ensures r < |t.kids| ==> !taken[r] && Match(s, t.kids[r]).Some?
    ensures forall j | i <= j < r :: taken[j] || Match(s, t.kids[j]).None?
    decreases t, 0, |t.kids| - i
  {
    if i == |t.kids| then i
    else if !taken[i] && Match(s, t.kids[i]).Some? then i
    else Find(s, t, taken, i + 1)
  }

  // ----- what a mapping looks like -----

  ghost function HitIds(hits: seq<Hit>): set<Bubble> {
    set i | 0 <= i < |hits| :: hits[i].b.id
  }

  function MappedNodes(hits: seq<Hit>): seq<Tree> {
    seq(|hits|, i requires 0 <= i < |hits| => hits[i].b)
  }

  ghost predicate DistinctHits(hits: seq<Hit>) {
    forall i, j | 0 <= i < j < |hits| :: hits[i].b.id != hits[j].b.id
  }

  lemma HitIdsConcat(a: seq<Hit>, b: seq<Hit>)
    ensures HitIds(a + b) == HitIds(a) + HitIds(b)
  {
    forall x | x in HitIds(a) + HitIds(b) ensures x in HitIds(a + b) {
      if x in HitIds(a) {
        var i :| 0 <= i < |a| && a[i].b.id == x;
        assert (a + b)[i] == a[i];
      } else {
        var i :| 0 <= i < |b| && b[i].b.id == x;
        assert (a + b)[|a| + i] == b[i];
      }
    }
  }

  lemma HitIdsOne(h: Hit)
    ensures HitIds([h]) == {h.b.id}
  {
    assert [h][0].b.id in HitIds([h]);
  }

  /** Every mapped bubble is an unmarked bubble of the tree that passes its straw's checks. */
  lemma {:induction false} MatchHits(s: Straw, t: Tree, h: Hit)
    requires Match(s, t).Some? && h in Match(s, t).value
    ensures h.b in Nodes(t) && !h.b.rec.merged && Passes(h.s, ViewOf(h.b))
    ensures s.notMerge ==> h.b != t
    decreases t, 2, 0
  {
    var m := MatchKids(KidStraws(s), t, NoneTaken(t)).value;
    if h in m {
      var i := MatchKidsHits(KidStraws(s), t, NoneTaken(t), h);
      assert h.b in Nodes(t.kids[i]) && t.kids[i] in t.kids;
      if h.b == t {
        Smaller(t.kids[i], h.b);
      }
    }
  }

  lemma Smaller(t: Tree, n: Tree)
    requires n in Nodes(t)
    ensures n == t || n < t
  {
  }

  lemma {:induction false} MatchKidsHits(ss: seq<Straw>, t: Tree, taken: seq<bool>, h: Hit) returns (i: nat)
    requires |taken| == |t.kids|
    requires MatchKids(ss, t, taken).Some? && h in MatchKids(ss, t, taken).value
    ensures i < |t.kids| && !taken[i] && h.b in Nodes(t.kids[i])
    ensures !h.b.rec.merged && Passes(h.s, ViewOf(h.b))
    decreases t, 1, |ss|
  {
    var f := Find(ss[0], t, taken, 0);
    if f == |t.kids| {
      i := MatchKidsHits(ss[1..], t, taken, h);
    } else if h in Match(ss[0], t.kids[f]).value {
      MatchHits(ss[0], t.kids[f], h);
      i := f;
    } else {
      i := MatchKidsHits(ss[1..], t, taken[f := true], h);
    }
  }

  lemma {:induction false} MatchDistinct(s: Straw, t: Tree)
    requires Match(s, t).Some? && Distinct(t)
    ensures DistinctHits(Match(s, t).value)
    decreases t, 2, 0
  {
    var m := MatchKids(KidStraws(s), t, NoneTaken(t)).value;
    MatchKidsDistinct(KidStraws(s), t, NoneTaken(t));
    forall k | 0 <= k < |m| ensures m[k].b.id != t.id {
      var i := MatchKidsHits(KidStraws(s), t, NoneTaken(t), m[k]);
      assert t.kids[i] in t.kids;
    }
  }

  lemma {:induction false} MatchKidsDistinct(ss: seq<Straw>, t: Tree, taken: seq<bool>)
    requires |taken| == |t.kids| && MatchKids(ss, t, taken).Some? && Distinct(t)
    ensures DistinctHits(MatchKids(ss, t, taken).value)
    decreases t, 1, |ss|
  {
    if ss != [] {
      var f := Find(ss[0], t, taken, 0);
      if f == |t.kids| {
        MatchKidsDistinct(ss[1..], t, taken);
      } else {
        var now, rest := Match(ss[0], t.kids[f]).value, MatchKids(ss[1..], t, taken[f := true]).value;
        MatchDistinct(ss[0], t.kids[f]);
        MatchKidsDistinct(ss[1..], t, taken[f := true]);
        MatchUnder(ss[0], t.kids[f]);
        TakenUntouched(ss[1..], t, taken[f := true], f);
        ConcatDistinct(now, rest);
      }
    }
  }

  lemma MatchUnder(s: Straw, t: Tree)
    requires Match(s, t).Some?
    ensures HitIds(Match(s, t).value) <= Ids(t)
  {
    forall h | h in Match(s, t).value ensures h.b in Nodes(t) {
      MatchHits(s, t, h);
    }
  }

  /** No hit lies under a child that was already taken. */
  lemma TakenUntouched(ss: seq<Straw>, t: Tree, taken: seq<bool>, f: nat)
    requires |taken| == |t.kids| && MatchKids(ss, t, taken).Some? && Distinct(t)
    requires f < |t.kids| && taken[f]
    ensures HitIds(MatchKids(ss, t, taken).value) !! Ids(t.kids[f])
  {
    forall h | h in MatchKids(ss, t, taken).value ensures h.b.id !in Ids(t.kids[f]) {
      var g := MatchKidsHits(ss, t, taken, h);
      Apart(t, f, g);
      assert h.b.id in Ids(t.kids[g]);
    }
  }

  lemma ConcatDistinct(a: seq<Hit>, b: seq<Hit>)
    requires DistinctHits(a) && DistinctHits(b) && HitIds(a) !! HitIds(b)
    ensures DistinctHits(a + b)
  {
    forall i, j | 0 <= i < |a| && 0 <= j < |b| ensures a[i].b.id != b[j].b.id {
      assert a[i].b.id in HitIds(a) && b[j].b.id in HitIds(b);
    }
  }

  lemma Apart(t: Tree, i: nat, j: nat)
    requires Distinct(t) && i < |t.kids| && j < |t.kids| && i != j
    ensures Ids(t.kids[i]) !! Ids(t.kids[j])
  {
    assert Foot(t.kids[i]) !! Foot(t.kids[j]);
    forall x | x in Ids(t.kids[i]) ensures x !in Ids(t.kids[j]) {
      assert x in Foot(t.kids[i]);
    }
  }
}
