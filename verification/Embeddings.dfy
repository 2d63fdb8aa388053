/** The greedy search against a declarative embedding of a straw into a tree. */
module Embeddings {
  import opened Wrappers
  import opened Bubbles
  import opened Patterns

  /** `s` fits `t` under some assignment of child straws to different children. */
  ghost predicate Embeds(s: Straw, t: Tree)
    decreases t, 1
  {
    && !t.rec.merged && Passes(s, ViewOf(t))
    && exists a :: Assigns(KidStraws(s), t, a)
  }

  ghost predicate Assigns(ss: seq<Straw>, t: Tree, a: seq<Option<nat>>)
    decreases t, 0
  {
    && |a| == |ss|
    && (forall j | 0 <= j < |a| && a[j].None? :: ss[j].optional)
    && (forall j | 0 <= j < |a| && a[j].Some? :: a[j].value < |t.kids| && Embeds(ss[j], t.kids[a[j].value]))
    && (forall i, j | 0 <= i < j < |a| && a[i].Some? && a[j].Some? :: a[i].value != a[j].value)
  }

  /** No child fits two sibling straws, here and below. */
  ghost predicate Exclusive(s: Straw, t: Tree)
    decreases t
  {
    var ss := KidStraws(s);
    && (forall i, j, k | 0 <= i < |t.kids| && 0 <= j < k < |ss| ::
          !(Embeds(ss[j], t.kids[i]) && Embeds(ss[k], t.kids[i])))
    && (forall i, j | 0 <= i < |t.kids| && 0 <= j < |ss| :: Exclusive(ss[j], t.kids[i]))
  }

  lemma {:induction false} MatchSound(s: Straw, t: Tree)
    requires Match(s, t).Some?
    ensures Embeds(s, t)
    decreases t, 2, 0
  {
    var a := KidsSound(KidStraws(s), t, NoneTaken(t));
  }

  lemma {:induction false} KidsSound(ss: seq<Straw>, t: Tree, taken: seq<bool>) returns (a: seq<Option<nat>>)
    requires |taken| == |t.kids| && MatchKids(ss, t, taken).Some?
    ensures Assigns(ss, t, a)
    ensures forall j | 0 <= j < |a| && a[j].Some? :: !taken[a[j].value]
    decreases t, 1, |ss|
  {
    if ss == [] {
      a := [];
    } else {
      var f := Find(ss[0], t, taken, 0);
      if f == |t.kids| {
        var rest := KidsSound(ss[1..], t, taken);
        a := [None] + rest;
      } else {
        MatchSound(ss[0], t.kids[f]);
        var rest := KidsSound(ss[1..], t, taken[f := true]);
        a := [Some(f)] + rest;
        forall j | 0 <= j < |a| && a[j].Some? ensures !taken[a[j].value] {
          assert j > 0 ==> a[j] == rest[j - 1];
        }
      }
    }
  }

  /** With exclusive siblings, greed loses nothing. */
  lemma {:induction false} MatchComplete(s: Straw, t: Tree)
    requires Embeds(s, t) && Exclusive(s, t)
    ensures Match(s, t).Some?
    decreases t, 2, 0
  {
    var a :| Assigns(KidStraws(s), t, a);
    KidsComplete(s, t, a, 0, NoneTaken(t));
  }

  lemma {:induction false} KidsComplete(s: Straw, t: Tree, a: seq<Option<nat>>, j: nat, taken: seq<bool>)
    requires Exclusive(s, t) && Assigns(KidStraws(s), t, a) && j <= |a| && |taken| == |t.kids|
    requires forall i | 0 <= i < |taken| && taken[i] ::
               exists k | 0 <= k < j :: Embeds(KidStraws(s)[k], t.kids[i])
    ensures MatchKids(KidStraws(s)[j..], t, taken).Some?
    decreases t, 1, |a| - j
  {
    var ss := KidStraws(s);
    if j < |a| {
      assert ss[j..][0] == ss[j] && ss[j..][1..] == ss[j + 1..];
      if a[j].Some? {
        var i := a[j].value;
        MatchComplete(ss[j], t.kids[i]);
        assert !taken[i];
      }
      var f := Find(ss[j], t, taken, 0);
      if f == |t.kids| {
        KidsComplete(s, t, a, j + 1, taken);
      } else {
        MatchSound(ss[j], t.kids[f]);
        KidsComplete(s, t, a, j + 1, taken[f := true]);
      }
    }
  }

  /** A match is found exactly when one exists. */
  lemma MatchIffEmbeds(s: Straw, t: Tree)
    requires Exclusive(s, t)
    ensures Match(s, t).Some? <==> Embeds(s, t)
  {
    if Match(s, t).Some? { MatchSound(s, t); }
    if Embeds(s, t) { MatchComplete(s, t); }
  }

  const LOOSE: Straw := Straw([], None, None, None, [], false, false)
  const NARROW: Straw := Straw([(v: View) => v.info.ContractDeploy?], None, None, None, [], false, false)

  /** Without exclusive siblings the search can miss: the loose straw takes the child only the narrow one needs. */
  lemma GreedyMisses(t: Tree)
    requires !t.rec.merged && |t.kids| == 2 && forall k | k in t.kids :: !k.rec.merged
    requires t.kids[0].rec.info.ContractDeploy? && !t.kids[1].rec.info.ContractDeploy?
    ensures var s := Straw([], None, None, None, [LOOSE, NARROW], false, false);
            Embeds(s, t) && Match(s, t).None?
  {
    var s := Straw([], None, None, None, [LOOSE, NARROW], false, false);
    var ss := KidStraws(s);
    assert !Passes(NARROW, ViewOf(t.kids[1])) by {
      assert NARROW.checks[0](ViewOf(t.kids[1])) == false;
    }
    assert MatchKids([], t.kids[0], NoneTaken(t.kids[0])) == Some([]);
    assert Match(LOOSE, t.kids[0]).Some?;
    assert Find(LOOSE, t, NoneTaken(t), 0) == 0;
    var taken := NoneTaken(t)[0 := true];
    assert Match(NARROW, t.kids[1]).None?;
    assert Find(NARROW, t, taken, 2) == 2;
    assert Find(NARROW, t, taken, 1) == 2;
    assert Find(NARROW, t, taken, 0) == 2;
    assert ss[1..] == [NARROW];
    assert MatchKids([NARROW], t, taken).None?;
    assert Assigns(KidStraws(LOOSE), t.kids[1], []) && Assigns(KidStraws(NARROW), t.kids[0], []);
    assert Embeds(LOOSE, t.kids[1]) && Embeds(NARROW, t.kids[0]);
    assert Assigns(ss, t, [Some(1), Some(0)]);
  }
}
