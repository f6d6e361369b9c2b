/** What the change count counts: functions inserted, deleted and rewritten. */
module ChangeCount {
  import opened Sequences
  import opened Merge
  import opened MergeFrame
  import opened MergeOnce
  import opened MergeOrder
  import opened PatchText

  /** The committed targets whose generated text differs from their own. */
  function Rewritten(gen: seq<Item>, targets: set<string>, ps: seq<Piece>): set<string> {
    set p | p in ps && p.Fn? && p.name in targets && p.name in Order(gen) && p.text != TextOf(gen, p.name) :: p.name
  }

  lemma NameCount(s: seq<string>)
    requires Distinct(s)
    ensures |s| == |ToSet(s)|
  {
    DistinctSize(s);
    assert ToSet(s) == Elements(s);
  }

  lemma {:induction false} FilterDistinct(s: seq<string>, keep: set<string>)
    requires Distinct(s)
    ensures |Filter(s, keep)| == |ToSet(s) * keep|
  {
    if s == [] {
      assert ToSet(s) * keep == {};
    } else {
      FilterDistinct(s[1..], keep);
      assert s[0] !in ToSet(s[1..]);
      if s[0] in keep {
        assert ToSet(s) * keep == {s[0]} + ToSet(s[1..]) * keep;
      } else {
        assert ToSet(s) * keep == ToSet(s[1..]) * keep;
      }
    }
  }

  /** Changes of a stretch: what it gains in length beyond its deletions, the deletions, the rewrites. */
  lemma {:induction false} ChangesAre(gen: seq<Item>, present: set<string>, targets: set<string>, ps: seq<Piece>, rewritten: set<string>)
    requires forall p :: p in ps && p.Fn? ==>
               (p.name in rewritten <==> p.name in targets && p.name in Order(gen) && p.text != TextOf(gen, p.name))
    ensures var deleted := |Filter(Names(ps), targets - ToSet(Order(gen)))|;
            Changes(gen, present, targets, ps) ==
            (|Names(ExpandAll(gen, present, targets, ps))| - |Names(ps)| + deleted) + deleted + |Filter(Names(ps), rewritten)|
  {
    if ps != [] {
      var p, rest := ps[0], ps[1..];
      assert p in ps;
      ChangesAre(gen, present, targets, rest, rewritten);
      NamesConcat(Expand(gen, present, targets, p), ExpandAll(gen, present, targets, rest));
      if p.Fn? {
        ExpandNames(gen, present, targets, p);
        NameFirst(p.name, Names(rest), targets - ToSet(Order(gen)));
        NameFirst(p.name, Names(rest), rewritten);
        assert Names(ps) == [p.name] + Names(rest);
      } else {
        assert Names(ps) == Names(rest);
        assert Names(Expand(gen, present, targets, p)) == [];
      }
    }
  }

  lemma NameFirst(name: string, rest: seq<string>, keep: set<string>)
    ensures |Filter([name] + rest, keep)| == (if name in keep then 1 else 0) + |Filter(rest, keep)|
  {
    assert ([name] + rest)[1..] == rest;
  }

  /** The count is the number of functions inserted, deleted and rewritten. */
  lemma ChangesAreCounted(gen: seq<Item>, targets: set<string>, ps: seq<Piece>)
    requires Distinct(Order(gen)) && Distinct(Names(ps))
    ensures var g := ToSet(Order(gen));
            AllChanges(gen, targets, ps) ==
            |targets * g - NameSet(ps)| + |NameSet(ps) * targets - g| + |Rewritten(gen, targets, ps)|
  {
    var g, present, rewritten := ToSet(Order(gen)), NameSet(ps), Rewritten(gen, targets, ps);
    RewrittenByName(gen, targets, ps);
    ChangesAre(gen, present, targets, ps, rewritten);
    PatchedNameSeq(gen, targets, ps);
    PatchedOnce(gen, targets, ps);
    NameCount(Names(Patched(gen, targets, ps)));
    NameCount(Names(ps));
    PatchedNames(gen, targets, ps);
    FilterDistinct(Names(ps), targets - g);
    FilterDistinct(Names(ps), rewritten);
    SizesAdd(present, targets, g);
    NamesMembers(ps);
    assert present * rewritten == rewritten;
    assert present * (targets - g) == present * targets - g;
  }

  lemma SizesAdd(present: set<string>, targets: set<string>, g: set<string>)
    ensures |(present - targets) + (targets * g)| ==
            |present| - |present * (targets - g)| + |targets * g - present|
  {
    var kept, deleted := present - (targets - g), present * (targets - g);
    assert present == kept + deleted;
    assert (present - targets) + (targets * g) == kept + (targets * g - present);
  }

  lemma RewrittenByName(gen: seq<Item>, targets: set<string>, ps: seq<Piece>)
    requires Distinct(Names(ps))
    ensures forall p :: p in ps && p.Fn? ==>
              (p.name in Rewritten(gen, targets, ps) <==>
               p.name in targets && p.name in Order(gen) && p.text != TextOf(gen, p.name))
  {
    forall p, q | p in ps && q in ps && p.Fn? && q.Fn? && p.name == q.name
      ensures p == q
    {
      NamedOnce(ps, p, q);
    }
  }

  lemma {:induction false} NamedOnce(ps: seq<Piece>, p: Piece, q: Piece)
    requires Distinct(Names(ps)) && p in ps && q in ps && p.Fn? && q.Fn? && p.name == q.name
    ensures p == q
  {
    NamesFirst(ps);
    NamesMembers(ps[1..]);
    if p != ps[0] && q != ps[0] {
      NamedOnce(ps[1..], p, q);
    }
  }
}
