/** The matcher and merger over the mutable tree (pkg/bath/matcher.go). */
module Matcher {
  import opened Wrappers
  import opened Ledger
  import opened Bubbles
  import opened Patterns
  import opened Clusters
  import opened Merges

  datatype Mapped = Mapped(s: Straw, b: Bubble)

  ghost function MappingOf(hits: seq<Hit>): seq<Mapped> {
    seq(|hits|, i requires 0 <= i < |hits| => Mapped(hits[i].s, hits[i].b.id))
  }

  lemma MappingConcat(a: seq<Hit>, b: seq<Hit>)
    ensures MappingOf(a + b) == MappingOf(a) + MappingOf(b)
  {
  }

  function Look(b: Bubble): View
    reads b, b.children
  {
    View(b.info, seq(|b.children|, i requires 0 <= i < |b.children| reads b, b.children => b.children[i].info))
  }

  lemma LookSees(t: Tree)
    requires Rep(t)
    ensures Look(t.id) == ViewOf(t)
    ensures t.id.children == Roots(t.kids) && forall k | k in t.kids :: Rep(k)
  {
    assert Here(t);
    forall k | k in t.kids ensures Rep(k) && Here(k) { KidUnder(t, k); }
    forall i | 0 <= i < |t.kids| ensures t.id.children[i].info == t.kids[i].rec.info {
      assert t.kids[i] in t.kids;
    }
  }

  method MatchBubble(s: Straw, bubble: Bubble, ghost t: Tree) returns (mappings: seq<Mapped>, matched: bool)
    requires Rep(t) && t.id == bubble && WellFormed(s)
    ensures matched == Match(s, t).Some?
    ensures matched ==> mappings == MappingOf(Match(s, t).value)
    decreases t, 2, 0
  {
    mappings, matched := [], false;
    LookSees(t);
    assert Here(t);
    if bubble.isMerged {
      return;
    }
    var view := Look(bubble);
    for c := 0 to |s.checks|
      invariant forall i | 0 <= i < c :: s.checks[i](view)
    {
      if !s.checks[c](view) {
        return;
      }
    }
    var straws := if s.single.Some? then [s.single.value] else s.children;
    var all := MatchChildren(straws, bubble, t);
    if all.None? {
      return;
    }
    mappings := all.value;
    if !s.notMerge {
      mappings := mappings + [Mapped(s, bubble)];
    }
    matched := true;
  }

  /** The loop over the child straws; each looks for the first free child that matches it. */
  method MatchChildren(ss: seq<Straw>, bubble: Bubble, ghost t: Tree) returns (r: Option<seq<Mapped>>)
    requires Rep(t) && t.id == bubble && forall i | 0 <= i < |ss| :: WellFormed(ss[i])
    ensures r.Some? == MatchKids(ss, t, NoneTaken(t)).Some?
    ensures r.Some? ==> r.value == MappingOf(MatchKids(ss, t, NoneTaken(t)).value)
    decreases t, 1, 0
  {
    LookSees(t);
    var mappings: seq<Mapped> := [];
    var matches := seq(|bubble.children|, _ => false);
    assert matches == NoneTaken(t);
    ghost var hits: seq<Hit> := [];
    assert ss[0..] == ss;
    ThenNothing(MatchKids(ss, t, NoneTaken(t)));
    for j := 0 to |ss|
      invariant Rep(t) && bubble.children == Roots(t.kids)
      invariant |matches| == |t.kids| && mappings == MappingOf(hits)
      invariant MatchKids(ss, t, NoneTaken(t)) == Then(hits, MatchKids(ss[j..], t, matches))
    {
      Advance(ss, j, t, matches, hits);
      assert allocated(Foot(t));
      var found, i, m := FirstMatch(ss[j], bubble, matches, t);
      if found {
        MappingConcat(hits, Match(ss[j], t.kids[i]).value);
        hits := hits + Match(ss[j], t.kids[i]).value;
        matches := matches[i := true];
        mappings := mappings + m;
      } else if !ss[j].optional {
        return None;
      }
    }
    assert ss[|ss|..] == [];
    return Some(mappings);
  }

  ghost function Then(hits: seq<Hit>, rest: Option<seq<Hit>>): Option<seq<Hit>> {
    if rest.None? then None else Some(hits + rest.value)
  }

  lemma ThenNothing(rest: Option<seq<Hit>>)
    ensures Then([], rest) == rest
  {
    if rest.Some? {
      assert [] + rest.value == rest.value;
    }
  }

  lemma ThenMore(hits: seq<Hit>, now: seq<Hit>, rest: Option<seq<Hit>>)
    ensures Then(hits, Then(now, rest)) == Then(hits + now, rest)
  {
    if rest.Some? {
      assert hits + (now + rest.value) == hits + now + rest.value;
    }
  }

  /** One round of the loop over the child straws. */
  lemma Advance(ss: seq<Straw>, j: nat, t: Tree, taken: seq<bool>, hits: seq<Hit>)
    requires j < |ss| && |taken| == |t.kids|
    ensures var f := Find(ss[j], t, taken, 0);
            Then(hits, MatchKids(ss[j..], t, taken)) ==
            if f < |t.kids| then
              Then(hits + Match(ss[j], t.kids[f]).value, MatchKids(ss[j + 1..], t, taken[f := true]))
            else if ss[j].optional then Then(hits, MatchKids(ss[j + 1..], t, taken))
            else None
  {
    assert ss[j..][0] == ss[j] && ss[j..][1..] == ss[j + 1..];
    var f := Find(ss[j], t, taken, 0);
    if f < |t.kids| {
      ThenMore(hits, Match(ss[j], t.kids[f]).value, MatchKids(ss[j + 1..], t, taken[f := true]));
    }
  }

  method FirstMatch(s: Straw, bubble: Bubble, matches: seq<bool>, ghost t: Tree)
    returns (found: bool, i: nat, m: seq<Mapped>)
    requires Rep(t) && t.id == bubble && WellFormed(s) && |matches| == |t.kids|
    ensures found == (Find(s, t, matches, 0) < |t.kids|)
    ensures found ==> i == Find(s, t, matches, 0) && m == MappingOf(Match(s, t.kids[i]).value)
    decreases t, 0, 0
  {
    i := 0;
    assert Here(t);
    while i < |bubble.children|
      invariant Rep(t)
      invariant i <= |t.kids| && Find(s, t, matches, 0) == Find(s, t, matches, i)
    {
      LookSees(t);
      if !matches[i] {
        assert t.kids[i] in t.kids;
        assert allocated(Foot(t));
        m, found := MatchBubble(s, bubble.children[i], t.kids[i]);
        if found {
          return;
        }
      }
      i := i + 1;
    }
    return false, i, [];
  }

  // ----- merging -----

  /** How a merge attempt ends; `Stuck` is the exit after a failed builder. */
  datatype Outcome = NotMatched | Rewritten | Stuck

  /** The heap holds `t`, except that the bubbles in `marked` are marked and may list more accounts. */
  ghost predicate During(t: Tree, marked: set<Bubble>)
    reads Foot(t)
  {
    forall n | n in Nodes(t) :: Partly(n, marked)
  }

  ghost predicate Partly(n: Tree, marked: set<Bubble>)
    reads n.id, n.cell
  {
    && n.id.info == n.rec.info
    && n.id.children == Roots(n.kids)
    && n.id.valueFlow == n.cell
    && n.cell.accounts == n.rec.flow
    && n.id.transaction == n.rec.transaction
    && n.id.isMerged == (n.rec.merged || n.id in marked)
    && (n.id !in marked ==> n.id.accounts == n.rec.accounts)
  }

  lemma RepIsDuring(t: Tree)
    ensures Rep(t) <==> During(t, {})
  {
    if During(t, {}) {
      forall n | n in Nodes(t) ensures Here(n) { assert Partly(n, {}); }
    }
  }

  lemma LookDuring(t: Tree, n: Tree, marked: set<Bubble>)
    requires During(t, marked) && n in Nodes(t)
    ensures Look(n.id) == ViewOf(n) && n.id.children == Roots(n.kids)
  {
    assert Partly(n, marked);
    forall i | 0 <= i < |n.kids| ensures n.id.children[i].info == n.kids[i].rec.info {
      NodesUnder(t, n);
      KidUnder(n, n.kids[i]);
      assert Partly(n.kids[i], marked);
    }
  }

  lemma Push(kept: seq<Tree>, k: Tree, rest: seq<Tree>)
    ensures Roots(kept + [k]) == Roots(kept) + [k.id]
    ensures kept + ([k] + rest) == (kept + [k]) + rest
  {
  }

  lemma UnmarkedStep(kept: seq<Tree>, kids: seq<Tree>, i: nat, marked: set<Bubble>)
    requires i < |kids|
    ensures var k := kids[i];
            && kept + Unmarked(kids[i..], marked)
               == (if k.rec.merged || k.id in marked then kept else kept + [k]) + Unmarked(kids[i + 1..], marked)
            && Roots(kept + [k]) == Roots(kept) + [k.id]
  {
    assert kids[i..][0] == kids[i] && kids[i..][1..] == kids[i + 1..];
    Push(kept, kids[i], Unmarked(kids[i + 1..], marked));
    assert [] + Unmarked(kids[i + 1..], marked) == Unmarked(kids[i + 1..], marked);
  }

  method NotMapped(children: seq<Bubble>, merged: set<Bubble>, ghost kids: seq<Tree>) returns (left: seq<Bubble>)
    requires children == Roots(kids)
    ensures left == Roots(Outside(kids, merged))
  {
    left := [];
    ghost var kept: seq<Tree> := [];
    for i := 0 to |children|
      invariant left == Roots(kept) && kept + Outside(kids[i..], merged) == Outside(kids, merged)
    {
      assert kids[i..][0] == kids[i] && kids[i..][1..] == kids[i + 1..];
      if children[i] !in merged {
        Push(kept, kids[i], Outside(kids[i + 1..], merged));
        left, kept := left + [children[i]], kept + [kids[i]];
      }
    }
  }

  /** The two writes to a mapped bubble: the accounts its builder appended, and the mark. */
  method MarkBubble(b: Bubble, extra: seq<AccountID>, ghost t: Tree, ghost n: Tree, ghost marked: set<Bubble>)
    requires During(t, marked) && Distinct(t) && n in Nodes(t) && n.id == b
    modifies b
    ensures During(t, marked + {b}) && b.accounts == old(b.accounts) + extra
  {
    assert allocated(Nodes(t)) && allocated(Foot(t));
    b.accounts, b.isMerged := b.accounts + extra, true;
    forall m | m in Nodes(t) ensures Partly(m, marked + {b}) {
      assert old(Partly(m, marked));
      if m.id == b { OneNode(t, m, n); }
    }
  }

  method Build(m: Mapped, newBubble: Info, ghost t: Tree, ghost h: Hit, ghost marked: set<Bubble>)
    returns (built: Built)
    requires During(t, marked) && h.b in Nodes(t) && m == Mapped(h.s, h.b.id)
    ensures built == BuildHit(h, newBubble)
  {
    LookDuring(t, h.b, marked);
    built := Built(newBubble, []);
    if m.s.builder.Some? {
      built := m.s.builder.value(newBubble, Look(m.b));
    }
  }

  /** One round of the merge loop: the bubble of one mapping element is folded into the new one. */
  method Absorb(m: Mapped, merged: set<Bubble>, newBubble: Info, nvf: ValueFlow,
                ghost t: Tree, ghost h: Hit, ghost marked: set<Bubble>)
    returns (built: Built, accounts: seq<AccountID>, transaction: seq<Hash>, left: seq<Bubble>)
    requires During(t, marked) && Distinct(t) && h.b in Nodes(t) && h.b.id !in marked
    requires m == Mapped(h.s, h.b.id) && nvf !in Foot(t)
    modifies m.b, nvf
    ensures built == BuildHit(h, newBubble)
    ensures built.BuildFailed? ==> During(t, marked) && nvf.accounts == old(nvf.accounts)
    ensures built.Built? ==>
      && During(t, marked + {m.b})
      && accounts == h.b.rec.accounts + built.extra && transaction == h.b.rec.transaction
      && left == Roots(Outside(h.b.kids, merged))
      && nvf.accounts == Merged(old(nvf.accounts), h.b.rec.flow) && m.b.accounts == accounts
  {
    assert allocated(Nodes(t)) && allocated(Foot(t));
    accounts, transaction, left := [], [], [];
    built := Build(m, newBubble, t, h, marked);
    if built.BuildFailed? {
      return;
    }
    accounts, transaction, left := TakeOver(m.b, built.extra, merged, nvf, t, h.b, marked);
  }

  /** What the new bubble takes over from a mapped one, which is marked. */
  method TakeOver(b: Bubble, extra: seq<AccountID>, merged: set<Bubble>, nvf: ValueFlow,
                  ghost t: Tree, ghost n: Tree, ghost marked: set<Bubble>)
    returns (accounts: seq<AccountID>, transaction: seq<Hash>, left: seq<Bubble>)
    requires During(t, marked) && Distinct(t) && n in Nodes(t) && n.id == b && b !in marked && nvf !in Foot(t)
    modifies b, nvf
    ensures During(t, marked + {b})
    ensures accounts == n.rec.accounts + extra && transaction == n.rec.transaction
            && left == Roots(Outside(n.kids, merged))
    ensures nvf.accounts == Merged(old(nvf.accounts), n.rec.flow) && b.accounts == accounts
  {
    ghost var foot := Foot(t);
    assert allocated(Nodes(t)) && allocated(foot) && Partly(n, marked) && n.cell in foot;
    MarkBubble(b, extra, t, n, marked);
    assert Partly(n, marked + {b});
    nvf.Merge(b.valueFlow);
    assert During(t, marked + {b});
    accounts, transaction := b.accounts, b.transaction;
    left := NotMapped(b.children, merged, n.kids);
  }

  lemma MarksSeen(t: Tree, q: Tree, marked: set<Bubble>)
    requires During(t, marked) && q in Nodes(t)
    ensures forall k | k in q.kids :: k.id.isMerged == (k.rec.merged || k.id in marked)
  {
    NodesUnder(t, q);
    forall k | k in q.kids ensures Partly(k, marked) { KidUnder(q, k); }
  }

  method KeepUnmarked(children: seq<Bubble>, ghost kids: seq<Tree>, ghost marked: set<Bubble>)
    returns (left: seq<Bubble>)
    requires children == Roots(kids)
    requires forall k | k in kids :: k.id.isMerged == (k.rec.merged || k.id in marked)
    ensures left == Roots(Unmarked(kids, marked))
  {
    left := [];
    ghost var kept: seq<Tree> := [];
    for i := 0 to |children|
      invariant left == Roots(kept) && kept + Unmarked(kids[i..], marked) == Unmarked(kids, marked)
    {
      var innerChild := children[i];
      UnmarkedStep(kept, kids, i, marked);
      if !innerChild.isMerged {
        left, kept := left + [innerChild], kept + [kids[i]];
      }
    }
  }

  /** The copy of a potential child, without the children that were merged. */
  method CopyChild(child: Bubble, ghost t: Tree, ghost q: Tree, ghost marked: set<Bubble>)
    returns (childCopy: Bubble)
    requires During(t, marked) && q in Nodes(t) && q.id == child && q.id !in marked
    ensures fresh(childCopy) && Here(Strip(q, marked).(id := childCopy))
  {
    assert Partly(q, marked);
    MarksSeen(t, q, marked);
    var newChildChildren := KeepUnmarked(child.children, q.kids, marked);
    childCopy := new Bubble(child.info, child.accounts, newChildChildren, child.valueFlow, child.transaction);
    childCopy.isMerged := child.isMerged;
  }

  ghost function Renamed(kids: seq<Tree>, ids: seq<Bubble>): (r: seq<Tree>)
    requires |kids| == |ids|
    ensures |r| == |kids| && forall i | 0 <= i < |r| :: r[i] == kids[i].(id := ids[i]) && r[i].id == ids[i]
  {
    seq(|kids|, i requires 0 <= i < |kids| => kids[i].(id := ids[i]))
  }

  /** The loop over the potential children. */
  method CopyChildren(potential: seq<Bubble>, ghost t: Tree, ghost qs: seq<Tree>, ghost marked: set<Bubble>)
    returns (newChildren: seq<Bubble>)
    requires During(t, marked) && potential == Roots(qs)
    requires forall q | q in qs :: q in Nodes(t) && q.id !in marked
    ensures |newChildren| == |qs| && fresh(newChildren)
    ensures forall i, j | 0 <= i < j < |qs| :: newChildren[i] != newChildren[j]
    ensures CopiesHere(qs, newChildren, marked)
  {
    newChildren := [];
    assert allocated(Foot(t)) && allocated(Nodes(t)) && allocated(qs);
    for k := 0 to |potential|
      invariant During(t, marked) && |newChildren| == k && fresh(newChildren) && AllDifferent(newChildren)
      invariant CopiesHere(qs, newChildren, marked)
    {
      assert qs[k] in qs && allocated(newChildren);
      ghost var before := newChildren;
      newChildren := CopyNext(potential[k], newChildren, k, t, qs, marked);
      DifferentMore(before, newChildren[k]);
    }
  }

  ghost predicate AllDifferent(bs: seq<Bubble>) {
    forall i, j | 0 <= i < j < |bs| :: bs[i] != bs[j]
  }

  lemma DifferentMore(bs: seq<Bubble>, b: Bubble)
    requires AllDifferent(bs) && b !in bs
    ensures AllDifferent(bs + [b])
  {
  }

  method CopyNext(child: Bubble, copies: seq<Bubble>, k: nat, ghost t: Tree, ghost qs: seq<Tree>,
                  ghost marked: set<Bubble>)
    returns (copies': seq<Bubble>)
    requires During(t, marked) && k < |qs| && qs[k] in Nodes(t) && qs[k].id == child && child !in marked
    requires |copies| == k && CopiesHere(qs, copies, marked)
    ensures |copies'| == k + 1 && copies' == copies + [copies'[k]] && fresh(copies'[k]) && copies'[k] !in copies
    ensures CopiesHere(qs, copies', marked)
  {
    assert allocated(copies) && allocated(qs);
    var childCopy := CopyChild(child, t, qs[k], marked);
    assert CopiesHere(qs, copies, marked);
    copies' := copies + [childCopy];
    forall i | 0 <= i < |copies'| ensures Here(Strip(qs[i], marked).(id := copies'[i])) {
      if i < k { assert copies'[i] == copies[i]; }
    }
  }

  /** The new bubbles hold copies of the first potential children. */
  ghost predicate CopiesHere(qs: seq<Tree>, copies: seq<Bubble>, marked: set<Bubble>)
    reads set i | 0 <= i < |copies| :: copies[i], set i | 0 <= i < |qs| :: qs[i].cell
  {
    |copies| <= |qs| && forall i | 0 <= i < |copies| :: Here(Strip(qs[i], marked).(id := copies[i]))
  }

  /** Once the new root and the copies are in place, the heap holds the merged tree. */
  lemma {:induction false} RepMerged(p: Pattern, t: Tree, t': Tree)
    requires IsMergeOf(p, t, t') && NoNested(p.straw) && Distinct(t) && NoMarks(t)
    requires forall i | 0 <= i < |t'.kids| :: t'.kids[i].id !in Foot(t)
    requires forall n | n in Nodes(t) && n.id != t.id :: Partly(n, HitIds(Match(p.straw, t).value))
    requires Here(t') && forall i | 0 <= i < |t'.kids| :: Here(t'.kids[i])
    ensures Rep(t')
  {
    forall n | n in Nodes(t') ensures Here(n) {
      if n != t' {
        var i :| 0 <= i < |t'.kids| && n in Nodes(t'.kids[i]);
        if n != t'.kids[i] {
          var k :| k in t'.kids[i].kids && n in Nodes(k);
          Untouched(p, t, t', i, k, n);
        }
      }
    }
  }

  lemma {:induction false} Untouched(p: Pattern, t: Tree, t': Tree, i: nat, k: Tree, n: Tree)
    requires IsMergeOf(p, t, t') && NoNested(p.straw) && Distinct(t) && NoMarks(t)
    requires forall i | 0 <= i < |t'.kids| :: t'.kids[i].id !in Foot(t)
    requires i < |t'.kids| && k in t'.kids[i].kids && n in Nodes(k)
    ensures n in Nodes(t) && n.id != t.id && n.id !in HitIds(Match(p.straw, t).value)
  {
    var hits := Match(p.straw, t).value;
    var ids := HitIds(hits);
    PotentialIn(p, t);
    ProductDistinct(p, t);
    RootGone(p, t, t', i);
    var u, q := Collapse(p, t).value.kids[i], Potential(p, t)[i];
    assert u == Strip(q, ids) && q in Potential(p, t);
    UnmarkedIn(q.kids, ids, k);
    KidUnder(q, k);
    NodesUnder(t, q);
    NodesUnder(k, n);
    KidUnder(u, k);
    KidUnder(t'.kids[i], k);
    assert n in Nodes(n) && n.id in Foot(n);
  }

  method MappedSet(mapping: seq<Mapped>, ghost hits: seq<Hit>) returns (merged: set<Bubble>)
    requires mapping == MappingOf(hits)
    ensures merged == HitIds(hits)
  {
    merged := {};
    for i := 0 to |mapping|
      invariant merged == set j | 0 <= j < i :: hits[j].b.id
    {
      merged := merged + {mapping[i].b};
    }
  }

  lemma OneTaken(hits: seq<Hit>, i: nat)
    requires i < |hits|
    ensures HitIds(hits[i..]) == HitIds(hits[i + 1..]) + {hits[i].b.id}
    ensures hits[i].b.id in HitIds(hits)
    ensures DistinctHits(hits) ==> hits[i].b.id !in HitIds(hits[i + 1..])
  {
    assert hits[i..] == [hits[i]] + hits[i + 1..];
    HitIdsConcat([hits[i]], hits[i + 1..]);
    HitIdsOne(hits[i]);
    assert HitIds(hits[i + 1..]) <= set j | i < j < |hits| :: hits[j].b.id;
  }

  lemma {:induction false} TakeAllConcat(a: seq<Hit>, b: seq<Hit>, d: Draft, ids: set<Bubble>)
    requires TakeAll(b, d, ids).Some?
    ensures TakeAll(a + b, d, ids) == TakeAll(a, TakeAll(b, d, ids).value, ids)
    decreases |b|
  {
    if b == [] {
      assert a + b == a;
    } else {
      var last := |b| - 1;
      assert |a + b| - 1 == |a| + last && (a + b)[..|a| + last] == a + b[..last] && (a + b)[|a| + last] == b[last];
      TakeAllConcat(a, b[..last], TakeHit(d, b[last], ids), ids);
    }
  }

  /** The new bubble, made from the mapping elements from `i` on. */
  ghost function DraftFrom(hits: seq<Hit>, start: Draft, i: nat): Option<Draft>
    requires i <= |hits|
  {
    TakeAll(hits[i..], start, HitIds(hits))
  }

  /** What the i-th builder answers, if it is asked at all. */
  ghost function AnswerAt(hits: seq<Hit>, start: Draft, i: nat): Option<Built>
    requires i < |hits|
  {
    match DraftFrom(hits, start, i + 1)
    case None => None
    case Some(d) => Some(BuildHit(hits[i], d.info))
  }

  /** What one round makes of the new bubble; a builder that fails ends the merge. */
  lemma FoldStep(hits: seq<Hit>, start: Draft, i: nat)
    requires i < |hits| && DraftFrom(hits, start, i + 1).Some?
    ensures var d := DraftFrom(hits, start, i + 1).value;
            var left := Outside(hits[i].b.kids, HitIds(hits));
            && Roots(d.potential + left) == Roots(d.potential) + Roots(left)
            && if BuildHit(hits[i], d.info).BuildFailed? then TakeAll(hits, start, HitIds(hits)).None?
               else DraftFrom(hits, start, i) == Some(TakeHit(d, hits[i], HitIds(hits)))
  {
    var d := DraftFrom(hits, start, i + 1).value;
    RootsConcat(d.potential, Outside(hits[i].b.kids, HitIds(hits)));
    if BuildHit(hits[i], d.info).BuildFailed? {
      assert hits == hits[..i + 1] + hits[i + 1..];
      TakeAllConcat(hits[..i + 1], hits[i + 1..], start, HitIds(hits));
    } else {
      assert hits[i..] == [hits[i]] + hits[i + 1..] && [hits[i]][..0] == [];
      TakeAllConcat([hits[i]], hits[i + 1..], start, HitIds(hits));
    }
  }

  /** The mapped bubbles from `i` on list their own accounts and then those that their builders added. */
  ghost predicate Appended(hits: seq<Hit>, start: Draft, i: nat)
    requires i <= |hits|
    reads HitIds(hits[i..])
  {
    forall j | i <= j < |hits| ::
      && AnswerAt(hits, start, j).Some? && AnswerAt(hits, start, j).value.Built?
      && hits[i..][j - i] == hits[j]
      && hits[j].b.id.accounts == hits[j].b.rec.accounts + AnswerAt(hits, start, j).value.extra
  }

  /** The heap after a merge was given up: the builder of one mapped bubble has failed, exactly the bubbles folded
      before it are marked, and they list the accounts that their builders added. */
  ghost predicate Abandoned(t: Tree, hits: seq<Hit>, start: Draft)
    reads Foot(t), HitIds(hits)
  {
    exists i | 0 <= i < |hits| ::
      && AnswerAt(hits, start, i) == Some(BuildFailed)
      && During(t, HitIds(hits[i + 1..])) && Appended(hits, start, i + 1)
  }

  lemma RootsConcat(a: seq<Tree>, b: seq<Tree>)
    ensures Roots(a + b) == Roots(a) + Roots(b)
  {
  }

  lemma AppendedMore(hits: seq<Hit>, start: Draft, i: nat)
    requires i < |hits| && Appended(hits, start, i + 1)
    requires AnswerAt(hits, start, i).Some? && AnswerAt(hits, start, i).value.Built?
    requires hits[i].b.id.accounts == hits[i].b.rec.accounts + AnswerAt(hits, start, i).value.extra
    ensures Appended(hits, start, i)
  {
  }

  /** One round of the loop, at the i-th element of the mapping. */
  method AbsorbAt(m: Mapped, merged: set<Bubble>, newBubble: Info, nvf: ValueFlow,
                  ghost t: Tree, ghost hits: seq<Hit>, ghost start: Draft, ghost i: nat)
    returns (built: Built, accounts: seq<AccountID>, transaction: seq<Hash>, left: seq<Bubble>)
    requires Distinct(t) && i < |hits| && DistinctHits(hits) && hits[i].b in Nodes(t) && nvf !in Foot(t)
    requires m == Mapped(hits[i].s, hits[i].b.id)
    requires DraftFrom(hits, start, i + 1).Some? && DraftFrom(hits, start, i + 1).value.info == newBubble
    requires During(t, HitIds(hits[i + 1..])) && Appended(hits, start, i + 1)
    modifies m.b, nvf
    ensures AnswerAt(hits, start, i) == Some(built)
    ensures built.BuildFailed? ==> During(t, HitIds(hits[i + 1..])) && Appended(hits, start, i + 1)
    ensures built.Built? ==>
      && During(t, HitIds(hits[i..])) && Appended(hits, start, i)
      && accounts == hits[i].b.rec.accounts + built.extra && transaction == hits[i].b.rec.transaction
      && left == Roots(Outside(hits[i].b.kids, merged))
      && nvf.accounts == Merged(old(nvf.accounts), hits[i].b.rec.flow)
  {
    assert allocated(Foot(t)) && allocated(Nodes(t)) && allocated(hits);
    OneTaken(hits, i);
    ghost var done := HitIds(hits[i + 1..]);
    assert allocated(done) && m.b !in done;
    built, accounts, transaction, left := Absorb(m, merged, newBubble, nvf, t, hits[i], done);
    assert Appended(hits, start, i + 1);
    if built.Built? {
      AppendedMore(hits, start, i);
    }
  }

  /** The loop that folds the mapping, from its last element to its first. */
  method FoldMapping(p: Pattern, bubble: Bubble, mapping: seq<Mapped>, nvf: ValueFlow, ghost t: Tree,
                     ghost hits: seq<Hit>)
    returns (ok: bool, newBubble: Info, newAccounts: seq<AccountID>, newTransaction: seq<Hash>,
             finalizer: Option<Info -> seq<JettonChange>>, potential: seq<Bubble>)
    requires Valid(t) && t.id == bubble && mapping == MappingOf(hits)
    requires DistinctHits(hits) && (forall h | h in hits :: h.b in Nodes(t)) && HitIds(hits) <= Ids(t)
    requires nvf !in Foot(t) && nvf.accounts == map[]
    modifies Ids(t), nvf
    ensures ok <==> TakeAll(hits, Begin(p, t), HitIds(hits)).Some?
    ensures !ok ==> Abandoned(t, hits, Begin(p, t))
    ensures ok ==>
      && During(t, HitIds(hits))
      && var d := TakeAll(hits, Begin(p, t), HitIds(hits)).value;
      && newBubble == d.info && newAccounts == d.accounts && newTransaction == d.transaction
      && finalizer == d.updater && nvf.accounts == d.flow && potential == Roots(d.potential)
  {
    assert allocated(Foot(t)) && allocated(Nodes(t)) && allocated(hits);
    assert Here(t) by { assert t in Nodes(t); }
    newBubble, newAccounts, newTransaction := p.zero, [], [];
    if !p.straw.notMerge {
      newAccounts, newTransaction := bubble.accounts, bubble.transaction;
    }
    finalizer, potential := None, [];
    var merged := MappedSet(mapping, hits);
    ghost var start := Begin(p, t);
    ghost var d := start;
    RepIsDuring(t);
    assert hits[|hits|..] == [] && hits[0..] == hits;
    var i: nat := |mapping|;
    while i > 0
      invariant i <= |mapping|
      invariant During(t, HitIds(hits[i..])) && Appended(hits, start, i) && DraftFrom(hits, start, i) == Some(d)
      invariant newBubble == d.info && newAccounts == d.accounts && newTransaction == d.transaction
      invariant finalizer == d.updater && nvf.accounts == d.flow && potential == Roots(d.potential)
    {
      i := i - 1;
      FoldStep(hits, start, i);
      assert hits[i] in hits && mapping[i].b in HitIds(hits);
      var built, accounts, transaction, left := AbsorbAt(mapping[i], merged, newBubble, nvf, t, hits, start, i);
      if built.BuildFailed? {
        return false, newBubble, [], [], None, [];
      }
      newBubble := built.info;
      if mapping[i].s.updater.Some? {
        finalizer := mapping[i].s.updater;
      }
      newAccounts := newAccounts + accounts;
      newTransaction := newTransaction + transaction;
      potential := potential + left;
      d := TakeHit(d, hits[i], merged);
    }
    ok := true;
  }

  lemma HitsInside(s: Straw, t: Tree)
    requires Match(s, t).Some? && Distinct(t)
    ensures var hits := Match(s, t).value;
            DistinctHits(hits) && (forall h | h in hits :: h.b in Nodes(t)) && HitIds(hits) <= Ids(t)
  {
    MatchDistinct(s, t);
    forall h | h in Match(s, t).value ensures h.b in Nodes(t) { MatchHits(s, t, h); }
  }

  method Merge(p: Pattern, bubble: Bubble, ghost t: Tree) returns (r: Outcome, ghost t': Tree)
    requires Valid(t) && NoMarks(t) && t.id == bubble
    requires WellFormed(p.straw) && NoNested(p.straw)
    modifies Ids(t)
    ensures r == NotMatched <==> Match(p.straw, t).None?
    ensures r == Stuck <==> Match(p.straw, t).Some? && Collapse(p, t).None?
    ensures r == NotMatched ==> t' == t && Rep(t)
    ensures r == Rewritten ==> IsMergeOf(p, t, t') && Valid(t') && NoMarks(t')
    ensures r == Rewritten ==> forall o | o in Foot(t') && o !in Foot(t) :: fresh(o)
    ensures r == Stuck ==> t' == t && Abandoned(t, Match(p.straw, t).value, Begin(p, t))
  {
    assert allocated(Foot(t)) && allocated(Nodes(t));
    var mapping, isMatched := MatchBubble(p.straw, bubble, t);
    if !isMatched {
      return NotMatched, t;
    }
    ghost var hits := Match(p.straw, t).value;
    HitsInside(p.straw, t);
    var nvf := new ValueFlow();
    var ok, newBubble, newAccounts, newTransaction, finalizer, potentialChildren :=
      FoldMapping(p, bubble, mapping, nvf, t, hits);
    if !ok {
      return Stuck, t;
    }
    t' := Rebuild(p, bubble, newBubble, newAccounts, newTransaction, finalizer, potentialChildren, nvf, t);
    r := Rewritten;
  }

  lemma PotentialRoots(p: Pattern, t: Tree)
    requires Match(p.straw, t).Some? && Collapse(p, t).Some?
    ensures var d := TakeAll(Match(p.straw, t).value, Begin(p, t), HitIds(Match(p.straw, t).value)).value;
            Roots(Potential(p, t)) == if p.straw.notMerge then Roots(d.potential) + [t.id] else Roots(d.potential)
  {
    var d := TakeAll(Match(p.straw, t).value, Begin(p, t), HitIds(Match(p.straw, t).value)).value;
    RootsConcat(d.potential, [t]);
    assert d.potential + [] == d.potential;
  }

  ghost function RenamedMerge(p: Pattern, t: Tree, cell: ValueFlow, ids: seq<Bubble>): (t': Tree)
    requires Match(p.straw, t).Some? && Collapse(p, t).Some? && |ids| == |Collapse(p, t).value.kids|
    ensures IsMergeOf(p, t, t') && t'.cell == cell && Roots(t'.kids) == ids
    ensures t'.kids == Renamed(Collapse(p, t).value.kids, ids)
  {
    var product := Collapse(p, t).value;
    Node(t.id, cell, product.rec, Renamed(product.kids, ids))
  }

  /** The second half of a merge: copy the potential children, apply the updater, overwrite the root. */
  method Rebuild(p: Pattern, bubble: Bubble, newBubble: Info, newAccounts: seq<AccountID>, newTransaction: seq<Hash>,
                 finalizer: Option<Info -> seq<JettonChange>>, potential: seq<Bubble>, nvf: ValueFlow, ghost t: Tree)
    returns (ghost t': Tree)
    requires Distinct(t) && NoMarks(t) && t.id == bubble && NoNested(p.straw)
    requires Match(p.straw, t).Some? && Collapse(p, t).Some? && During(t, HitIds(Match(p.straw, t).value))
    requires var ids := HitIds(Match(p.straw, t).value);
             var d := TakeAll(Match(p.straw, t).value, Begin(p, t), ids).value;
             && newBubble == d.info && newAccounts == d.accounts && newTransaction == d.transaction
             && finalizer == d.updater && nvf.accounts == d.flow && potential == Roots(d.potential)
    requires nvf !in Foot(t)
    modifies bubble, nvf
    ensures IsMergeOf(p, t, t') && Valid(t') && NoMarks(t') && t'.cell == nvf
    ensures forall o | o in Foot(t') && o !in Foot(t) && o != nvf :: fresh(o)
  {
    assert allocated(Foot(t)) && allocated(Nodes(t)) && allocated(nvf);
    PotentialIn(p, t);
    ghost var marked := HitIds(Match(p.straw, t).value);
    var potentialChildren := potential;
    if p.straw.notMerge {
      // a bubble that is not merged itself goes below the new one, not to be lost
      potentialChildren := potentialChildren + [bubble];
    }
    PotentialRoots(p, t);
    var newChildren := CopyChildren(potentialChildren, t, Potential(p, t), marked);
    Finalize(finalizer, newBubble, nvf, newChildren, t, Potential(p, t), marked);
    t' := RenamedMerge(p, t, nvf, newChildren);
    Overwrite(p, bubble, newBubble, newAccounts, newChildren, nvf, newTransaction, t, t');
  }

  /** The updater, if there is one; neither the old bubbles nor the copies change. */
  method Finalize(finalizer: Option<Info -> seq<JettonChange>>, info: Info, nvf: ValueFlow, copies: seq<Bubble>,
                  ghost t: Tree, ghost qs: seq<Tree>, ghost marked: set<Bubble>)
    requires During(t, marked) && CopiesHere(qs, copies, marked) && nvf !in Foot(t)
    requires forall q | q in qs :: q in Nodes(t)
    modifies nvf
    ensures During(t, marked) && CopiesHere(qs, copies, marked)
    ensures nvf.accounts == Changed(old(nvf.accounts), if finalizer.Some? then finalizer.value(info) else [])
  {
    assert allocated(Foot(t)) && allocated(Nodes(t)) && allocated(qs);
    forall i | 0 <= i < |qs| ensures qs[i].cell != nvf { assert qs[i] in qs && qs[i].cell in Foot(t); }
    if finalizer.Some? {
      ApplyUpdater(finalizer.value, info, nvf);
    }
  }

  method Overwrite(p: Pattern, bubble: Bubble, info: Info, accounts: seq<AccountID>, children: seq<Bubble>,
                   valueFlow: ValueFlow, transaction: seq<Hash>, ghost t: Tree, ghost t': Tree)
    requires Distinct(t) && NoMarks(t) && t.id == bubble && NoNested(p.straw) && IsMergeOf(p, t, t')
    requires During(t, HitIds(Match(p.straw, t).value))
    requires t'.cell == valueFlow && valueFlow !in Foot(t)
    requires t'.rec == Rec(info, accounts, valueFlow.accounts, transaction, false) && children == Roots(t'.kids)
    requires CopiesHere(Potential(p, t), children, HitIds(Match(p.straw, t).value))
    requires t'.kids == Renamed(Collapse(p, t).value.kids, children)
    requires forall i | 0 <= i < |children| :: children[i] !in Foot(t)
    requires forall i, j | 0 <= i < j < |children| :: children[i] != children[j]
    modifies bubble
    ensures Valid(t') && NoMarks(t')
    ensures forall o | o in Foot(t') && o !in Foot(t) :: o == valueFlow || o in children
  {
    assert allocated(Foot(t)) && allocated(Nodes(t));
    CopiesAreKids(p, t, t', children);
    bubble.info, bubble.accounts, bubble.children := info, accounts, children;
    bubble.valueFlow, bubble.transaction, bubble.isMerged := valueFlow, transaction, false;
    Overwritten(p, t, t', children);
  }

  lemma CopiesAreKids(p: Pattern, t: Tree, t': Tree, children: seq<Bubble>)
    requires Match(p.straw, t).Some? && Collapse(p, t).Some? && |children| == |Collapse(p, t).value.kids|
    requires CopiesHere(Potential(p, t), children, HitIds(Match(p.straw, t).value))
    requires t'.kids == Renamed(Collapse(p, t).value.kids, children)
    ensures forall i | 0 <= i < |children| :: Here(t'.kids[i])
  {
    var qs, marked := Potential(p, t), HitIds(Match(p.straw, t).value);
    assert Collapse(p, t).value.kids == StripAll(qs, marked);
    forall i | 0 <= i < |children| ensures Here(t'.kids[i]) {
      assert t'.kids[i] == Strip(qs[i], marked).(id := children[i]);
    }
  }

  lemma {:induction false} Overwritten(p: Pattern, t: Tree, t': Tree, children: seq<Bubble>)
    requires Distinct(t) && NoMarks(t) && NoNested(p.straw) && IsMergeOf(p, t, t')
    requires forall n | n in Nodes(t) && n.id != t.id :: Partly(n, HitIds(Match(p.straw, t).value))
    requires t'.cell !in Foot(t) && Here(t') && children == Roots(t'.kids)
    requires forall i | 0 <= i < |children| :: children[i] !in Foot(t) && Here(t'.kids[i])
    requires forall i, j | 0 <= i < j < |children| :: children[i] != children[j]
    ensures Valid(t') && NoMarks(t')
    ensures forall o | o in Foot(t') && o !in Foot(t) :: o == t'.cell || o in children
  {
    assert forall i | 0 <= i < |children| :: children[i] == t'.kids[i].id;
    MergeDistinct(p, t, t');
    RepMerged(p, t, t');
    forall o | o in Foot(t') && o !in Foot(t) ensures o == t'.cell || o in children {
      MergedFoot(p, t, t', o);
    }
  }

  /** An updater only ever adds jettons to, or takes them from, the merged flow. */
  method ApplyUpdater(updater: Info -> seq<JettonChange>, info: Info, flow: ValueFlow)
    modifies flow
    ensures flow.accounts == Changed(old(flow.accounts), updater(info))
  {
    var changes := updater(info);
    assert changes[0..] == changes;
    for i := 0 to |changes|
      invariant Changed(flow.accounts, changes[i..]) == Changed(old(flow.accounts), changes)
    {
      assert changes[i..][0] == changes[i] && changes[i..][1..] == changes[i + 1..];
      flow.AddJettons(changes[i].account, changes[i].master, changes[i].amount);
    }
  }
}
