/**
  Repointing references at live notes: `load_maps`, `resolve` and `remap` of
  scripts/remap_vault_reference_ids.py, over the identity classes.
 */
module References {
  import opened Wrappers
  import opened Closure
  import opened Identity

  // ----------------------------------------------------------------- evidence

  /** One line of an import map: an upstream id and the note id it became, if any. */
  type Entry = (string, Option<string>)

  predicate Names(e: Entry) {
    e.1.Some? && e.1.value != ""
  }

  function PairsIn(entries: set<Entry>): set<Pair> {
    set e | e in entries && Names(e) :: (e.0, e.1.value)
  }

  /** Every entry of every map, in whatever order they were given. */
  function AllEntries(maps: seq<seq<Entry>>): set<Entry> {
    if maps == [] then {} else Elements(maps[0]) + AllEntries(maps[1..])
  }

  function Elements(entries: seq<Entry>): set<Entry> {
    set e | e in entries
  }

  function IdsIn(pairs: set<Pair>): set<string> {
    (set p | p in pairs :: p.0) + (set p | p in pairs :: p.1)
  }

  lemma PairsGrow(entries: set<Entry>, e: Entry)
    ensures PairsIn(entries + {e}) == if Names(e) then PairsIn(entries) + {(e.0, e.1.value)} else PairsIn(entries)
    ensures Names(e) ==> IdsIn(PairsIn(entries + {e})) == IdsIn(PairsIn(entries)) + {e.0, e.1.value}
  {
    var before, after := PairsIn(entries), PairsIn(entries + {e});
    assert forall d :: d in entries + {e} <==> d in entries || d == e;
    if Names(e) {
      assert after == before + {(e.0, e.1.value)};
      forall id | id in IdsIn(before) + {e.0, e.1.value} ensures id in IdsIn(after) {
        if id == e.0 || id == e.1.value { assert (e.0, e.1.value) in after; }
      }
    }
  }

  /** The union loop of `load_maps` over one map. */
  method LoadMap(classes: IdentityClasses, entries: seq<Entry>, ghost seen: set<Entry>)
    requires classes.Valid() && classes.pairs == PairsIn(seen) && classes.parent.Keys == IdsIn(classes.pairs)
    modifies classes
    ensures classes.Valid() && classes.pairs == PairsIn(seen + Elements(entries))
    ensures classes.parent.Keys == IdsIn(classes.pairs)
  {
    var k := 0;
    assert seen + Elements(entries[..0]) == seen;
    while k < |entries|
      invariant 0 <= k <= |entries|
      invariant classes.Valid() && classes.pairs == PairsIn(seen + Elements(entries[..k]))
      invariant classes.parent.Keys == IdsIn(classes.pairs)
    {
      var entry := entries[k];
      ghost var loaded := seen + Elements(entries[..k]);
      assert entries[..k + 1] == entries[..k] + [entry];
      assert seen + Elements(entries[..k + 1]) == loaded + {entry};
      PairsGrow(loaded, entry);
      if entry.1.Some? && entry.1.value != "" {
        classes.Union(entry.0, entry.1.value);
      }
      k := k + 1;
    }
    assert entries[..k] == entries;
  }

  lemma {:induction false} AllEntriesAppend(maps: seq<seq<Entry>>, m: seq<Entry>)
    ensures AllEntries(maps + [m]) == AllEntries(maps) + Elements(m)
  {
    if maps == [] {
      assert maps + [m] == [m] && [m][1..] == [];
    } else {
      assert (maps + [m])[1..] == maps[1..] + [m];
      AllEntriesAppend(maps[1..], m);
    }
  }

  /** `load_maps`: every named pair of every map is unioned, and nothing else is known. */
  method LoadMaps(maps: seq<seq<Entry>>) returns (classes: IdentityClasses)
    ensures fresh(classes) && classes.Valid()
    ensures classes.pairs == PairsIn(AllEntries(maps)) && classes.parent.Keys == IdsIn(classes.pairs)
  {
    classes := new IdentityClasses();
    var k := 0;
    while k < |maps|
      invariant 0 <= k <= |maps| && fresh(classes)
      invariant classes.Valid() && classes.pairs == PairsIn(AllEntries(maps[..k]))
      invariant classes.parent.Keys == IdsIn(classes.pairs)
    {
      assert maps[..k + 1] == maps[..k] + [maps[k]];
      AllEntriesAppend(maps[..k], maps[k]);
      LoadMap(classes, maps[k], AllEntries(maps[..k]));
      k := k + 1;
    }
    assert maps[..k] == maps;
  }

  lemma {:induction false} AllEntriesMembers(maps: seq<seq<Entry>>, e: Entry)
    ensures e in AllEntries(maps) <==> exists m :: m in maps && e in m
  {
    if maps != [] {
      AllEntriesMembers(maps[1..], e);
      if e in maps[0] { assert maps[0] in maps; }
      if e in AllEntries(maps[1..]) { var m :| m in maps[1..] && e in m; assert m in maps; }
      if m :| m in maps && e in m { assert m == maps[0] || m in maps[1..]; }
    }
  }

  /** The evidence: exactly the entries of some map that name a note id which is not empty. */
  lemma EvidenceExactly(maps: seq<seq<Entry>>, a: string, b: string)
    ensures (a, b) in PairsIn(AllEntries(maps)) <==> b != "" && exists m :: m in maps && (a, Some(b)) in m
  {
    AllEntriesMembers(maps, (a, Some(b)));
    var pairs := PairsIn(AllEntries(maps));
    if (a, Some(b)) in AllEntries(maps) && b != "" {
      var e: Entry := (a, Some(b));
      assert Names(e) && (e.0, e.1.value) in pairs;
    }
    if (a, b) in pairs {
      var e :| e in AllEntries(maps) && Names(e) && (e.0, e.1.value) == (a, b);
      assert e == (a, Some(b));
    }
  }

  // --------------------------------------------------------------- resolution

  datatype Resolution = Resolution(
    canonical: map<string, string>,
    orphaned: map<string, set<string>>,
    ambiguous: map<string, set<string>>)

  /** `t` is the one live id among everything known to denote the same note as `x`. */
  ghost predicate Denotes(known: set<string>, pairs: set<Pair>, live: set<string>, x: string, t: string) {
    x in known && ClassOf(known, pairs, x) * live == {t}
  }

  /** The map sends exactly the ids that denote one live note, each to that note. */
  ghost predicate IsCanonical(canonical: map<string, string>, known: set<string>, pairs: set<Pair>, live: set<string>) {
    forall x, t {:trigger Denotes(known, pairs, live, x, t)} ::
      (x in canonical && canonical[x] == t) <==> Denotes(known, pairs, live, x, t)
  }

  /** The canonical map once the groups in `done` have been classified. */
  ghost predicate CanonicalSoFar(
      canonical: map<string, string>, groups: map<string, set<string>>, live: set<string>, done: set<string>)
  {
    && (forall x {:trigger x in canonical} :: x in canonical ==>
          exists g :: g in done && g in groups && x in groups[g] && groups[g] * live == {canonical[x]})
    && (forall g, x {:trigger g in done, x in canonical} ::
          g in done && g in groups && x in groups[g] && |groups[g] * live| == 1 ==> x in canonical)
  }

  function Orphaned(groups: map<string, set<string>>, live: set<string>, done: set<string>): map<string, set<string>> {
    map g | g in groups && g in done && groups[g] * live == {} :: groups[g]
  }

  function Ambiguous(groups: map<string, set<string>>, live: set<string>, done: set<string>): map<string, set<string>> {
    map g | g in groups && g in done && |groups[g] * live| > 1 :: groups[g] * live
  }

  lemma SingletonIs<T>(s: set<T>, t: T)
    requires |s| == 1 && t in s
    ensures s == {t}
  {
    assert |s - {t}| == 0;
  }

  /** `for alias in group: canonical[alias] = target`. */
  method PointAll(canonical: map<string, string>, group: set<string>, target: string) returns (r: map<string, string>)
    ensures r == canonical + map x | x in group :: target
  {
    r := canonical;
    var todo := group;
    while todo != {}
      invariant todo <= group && r == canonical + map x | x in group - todo :: target
      decreases |todo|
    {
      var alias :| alias in todo;
      r := r[alias := target];
      todo := todo - {alias};
    }
  }

  lemma CanonicalGrows(
      canonical: map<string, string>, groups: map<string, set<string>>, live: set<string>, done: set<string>,
      g: string, target: string)
    requires CanonicalSoFar(canonical, groups, live, done) && g in groups && groups[g] * live == {target}
    requires forall h :: h in groups && h != g ==> groups[h] !! groups[g]
    ensures CanonicalSoFar(canonical + map x | x in groups[g] :: target, groups, live, done + {g})
  {
    var canonical' := canonical + map x | x in groups[g] :: target;
    forall x | x in canonical'
      ensures exists h :: h in done + {g} && h in groups && x in groups[h] && groups[h] * live == {canonical'[x]}
    {
      if x in groups[g] {
        assert g in done + {g};
      } else {
        var h :| h in done && h in groups && x in groups[h] && groups[h] * live == {canonical[x]};
        assert h in done + {g};
      }
    }
  }

  lemma CanonicalStays(
      canonical: map<string, string>, groups: map<string, set<string>>, live: set<string>, done: set<string>, g: string)
    requires CanonicalSoFar(canonical, groups, live, done) && g in groups && |groups[g] * live| != 1
    ensures CanonicalSoFar(canonical, groups, live, done + {g})
  {
    forall x | x in canonical
      ensures exists h :: h in done + {g} && h in groups && x in groups[h] && groups[h] * live == {canonical[x]}
    {
      var h :| h in done && h in groups && x in groups[h] && groups[h] * live == {canonical[x]};
      assert h in done + {g};
    }
  }

  lemma OthersGrow(groups: map<string, set<string>>, live: set<string>, done: set<string>, g: string)
    requires g in groups && g !in done
    ensures Orphaned(groups, live, done + {g})
            == if groups[g] * live == {} then Orphaned(groups, live, done)[g := groups[g]]
               else Orphaned(groups, live, done)
    ensures Ambiguous(groups, live, done + {g})
            == if |groups[g] * live| > 1 then Ambiguous(groups, live, done)[g := groups[g] * live]
               else Ambiguous(groups, live, done)
  {
  }

  lemma NothingClassified(groups: map<string, set<string>>, live: set<string>)
    ensures CanonicalSoFar(map[], groups, live, {})
    ensures Orphaned(groups, live, {}) == map[] && Ambiguous(groups, live, {}) == map[]
  {
  }

  /** The classification loop of `resolve`, over the grouped members. */
  method Classify(groups: map<string, set<string>>, live: set<string>) returns (r: Resolution)
    requires forall g, h :: g in groups && h in groups && g != h ==> groups[g] !! groups[h]
    ensures CanonicalSoFar(r.canonical, groups, live, groups.Keys)
    ensures r.orphaned == Orphaned(groups, live, groups.Keys)
    ensures r.ambiguous == Ambiguous(groups, live, groups.Keys)
  {
    hide CanonicalSoFar, Orphaned, Ambiguous;
    NothingClassified(groups, live);
    r := Resolution(map[], map[], map[]);
    var todo := groups.Keys;
    ghost var done: set<string> := {};
    while todo != {}
      invariant todo + done == groups.Keys && todo !! done
      invariant CanonicalSoFar(r.canonical, groups, live, done)
      invariant r.orphaned == Orphaned(groups, live, done) && r.ambiguous == Ambiguous(groups, live, done)
      decreases |todo|
    {
      var g :| g in todo;
      var group := groups[g];
      var alive := group * live;
      OthersGrow(groups, live, done, g);
      if |alive| == 1 {
        var target :| target in alive;
        SingletonIs(alive, target);
        CanonicalGrows(r.canonical, groups, live, done, g, target);
        var canonical := PointAll(r.canonical, group, target);
        r := r.(canonical := canonical);
      } else if alive == {} {
        CanonicalStays(r.canonical, groups, live, done, g);
        r := r.(orphaned := r.orphaned[g := group]);
      } else {
        CanonicalStays(r.canonical, groups, live, done, g);
        r := r.(ambiguous := r.ambiguous[g := alive]);
      }
      todo, done := todo - {g}, done + {g};
    }
    assert done == groups.Keys;
  }

  lemma GroupsDisjoint(root: map<string, string>)
    ensures var groups := GroupsOf(root, root.Keys);
            forall g, h :: g in groups && h in groups && g != h ==> groups[g] !! groups[h]
  {
  }

  lemma GroupMember(root: map<string, string>, g: string, x: string)
    requires g in GroupsOf(root, root.Keys) && x in GroupsOf(root, root.Keys)[g]
    ensures x in root
  {
  }

  lemma GroupDecides(
      root: map<string, string>, pairs: set<Pair>, live: set<string>, canonical: map<string, string>,
      x: string, t: string)
    requires Represents(root, pairs)
    requires CanonicalSoFar(canonical, GroupsOf(root, root.Keys), live, GroupsOf(root, root.Keys).Keys)
    ensures (x in canonical && canonical[x] == t) <==> Denotes(root.Keys, pairs, live, x, t)
  {
    hide Represents, GroupsOf, ClassOf;
    var groups := GroupsOf(root, root.Keys);
    if x in canonical {
      var g :| g in groups && x in groups[g] && groups[g] * live == {canonical[x]};
      GroupMember(root, g, x);
    }
    if x in root {
      GroupsAreClasses(root, pairs, x);
      assert root[x] in groups.Keys;
      if groups[root[x]] * live == {t} {
        assert x in canonical;
        assert t in groups[root[x]] * live;
      }
    }
  }

  /** What the loop decides from the groups is what the equivalence closure says. */
  lemma GroupsDecide(root: map<string, string>, pairs: set<Pair>, live: set<string>, canonical: map<string, string>)
    requires Represents(root, pairs)
    requires CanonicalSoFar(canonical, GroupsOf(root, root.Keys), live, GroupsOf(root, root.Keys).Keys)
    ensures IsCanonical(canonical, root.Keys, pairs, live)
  {
    forall x, t
      ensures (x in canonical && canonical[x] == t) <==> Denotes(root.Keys, pairs, live, x, t)
    {
      GroupDecides(root, pairs, live, canonical, x, t);
    }
    hide Represents, GroupsOf, Denotes, CanonicalSoFar;
  }

  /**
    `resolve`: the canonical map is settled by which ids denote one live note; the
    other classes are reported under their root, with no live id or with several.
   */
  method Resolve(classes: IdentityClasses, live: set<string>) returns (r: Resolution)
    requires classes.Valid()
    modifies classes
    ensures classes.Valid() && classes.pairs == old(classes.pairs) && classes.root == old(classes.root)
    ensures IsCanonical(r.canonical, classes.root.Keys, classes.pairs, live)
    ensures r.orphaned
            == Orphaned(GroupsOf(classes.root, classes.root.Keys), live, RootsOf(classes.root, classes.root.Keys))
    ensures r.ambiguous
            == Ambiguous(GroupsOf(classes.root, classes.root.Keys), live, RootsOf(classes.root, classes.root.Keys))
  {
    var groups := classes.Members();
    GroupsDisjoint(classes.root);
    r := Classify(groups, live);
    GroupsDecide(classes.root, classes.pairs, live, r.canonical);
  }

  /** Every known id falls in exactly one of the three outcomes, with its whole class. */
  lemma ResolutionCoversKnown(root: map<string, string>, pairs: set<Pair>, live: set<string>, r: Resolution, x: string)
    requires Represents(root, pairs) && x in root && IsCanonical(r.canonical, root.Keys, pairs, live)
    requires r.orphaned == Orphaned(GroupsOf(root, root.Keys), live, RootsOf(root, root.Keys))
    requires r.ambiguous == Ambiguous(GroupsOf(root, root.Keys), live, RootsOf(root, root.Keys))
    ensures var class_ := ClassOf(root.Keys, pairs, x);
            && (x in r.canonical <==> |class_ * live| == 1)
            && (root[x] in r.orphaned <==> class_ * live == {})
            && (root[x] in r.orphaned ==> r.orphaned[root[x]] == class_)
            && (root[x] in r.ambiguous <==> |class_ * live| > 1)
            && (root[x] in r.ambiguous ==> r.ambiguous[root[x]] == class_ * live)
  {
    GroupsAreClasses(root, pairs, x);
    var alive := ClassOf(root.Keys, pairs, x) * live;
    if x in r.canonical { assert Denotes(root.Keys, pairs, live, x, r.canonical[x]); }
    if |alive| == 1 {
      var t :| t in alive;
      SingletonIs(alive, t);
      assert Denotes(root.Keys, pairs, live, x, t);
    }
  }

  /** The whole run: evidence in, canonical map out. */
  method ResolveMaps(maps: seq<seq<Entry>>, live: set<string>) returns (r: Resolution)
    ensures var pairs := PairsIn(AllEntries(maps)); IsCanonical(r.canonical, IdsIn(pairs), pairs, live)
  {
    var classes := LoadMaps(maps);
    assert classes.root.Keys == classes.parent.Keys;
    r := Resolve(classes, live);
  }

  /** Maps may be given in any order, or more than once: the canonical map is the same. */
  lemma OrderOfMapsDoesNotMatter(
      maps: seq<seq<Entry>>, others: seq<seq<Entry>>, live: set<string>, c: map<string, string>, d: map<string, string>)
    requires forall m :: m in maps <==> m in others
    requires var pairs := PairsIn(AllEntries(maps)); IsCanonical(c, IdsIn(pairs), pairs, live)
    requires var pairs := PairsIn(AllEntries(others)); IsCanonical(d, IdsIn(pairs), pairs, live)
    ensures c == d
  {
    forall e ensures e in AllEntries(maps) <==> e in AllEntries(others) {
      AllEntriesMembers(maps, e);
      AllEntriesMembers(others, e);
    }
    assert AllEntries(maps) == AllEntries(others);
    var pairs := PairsIn(AllEntries(maps));
    var known := IdsIn(pairs);
    CanonicalUnique(c, d, known, pairs, live);
  }

  lemma CanonicalUnique(
      c: map<string, string>, d: map<string, string>, known: set<string>, pairs: set<Pair>, live: set<string>)
    requires IsCanonical(c, known, pairs, live) && IsCanonical(d, known, pairs, live)
    ensures c == d
  {
    forall x | x in c ensures x in d && d[x] == c[x] { assert Denotes(known, pairs, live, x, c[x]); }
    forall x | x in d ensures x in c && c[x] == d[x] { assert Denotes(known, pairs, live, x, d[x]); }
  }

  // ---------------------------------------------------------------- repointing

  function Repoint(value: string, canonical: map<string, string>): string {
    if value in canonical then canonical[value] else value
  }

  /** `remap`: one value out for each value in. */
  function Remap(values: seq<string>, canonical: map<string, string>): seq<string> {
    seq(|values|, i requires 0 <= i < |values| => Repoint(values[i], canonical))
  }

  /** An id that already names a live note is left alone, whether or not any map knows it. */
  lemma LiveIdsFixed(canonical: map<string, string>, known: set<string>, pairs: set<Pair>, live: set<string>,
      id: string)
    requires IsCanonical(canonical, known, pairs, live) && id in live
    ensures Repoint(id, canonical) == id
  {
    if id in canonical {
      assert Denotes(known, pairs, live, id, canonical[id]);
      Reflexive(pairs, id);
      assert id in ClassOf(known, pairs, id) * live;
    }
  }

  /** A repointed reference names the one live note it denotes, or is exactly as it was. */
  lemma RepointSound(canonical: map<string, string>, known: set<string>, pairs: set<Pair>, live: set<string>,
      id: string)
    requires IsCanonical(canonical, known, pairs, live)
    ensures var t := Repoint(id, canonical);
            (t in live && Denotes(known, pairs, live, id, t)) || (t == id && id !in canonical)
  {
    if id in canonical {
      var t := canonical[id];
      assert Denotes(known, pairs, live, id, t);
      assert t in ClassOf(known, pairs, id) * live;
    }
  }

  /** Length and order are kept, live ids are fixed, and a second run changes nothing. */
  lemma RemapIdempotent(
      values: seq<string>, canonical: map<string, string>, known: set<string>, pairs: set<Pair>, live: set<string>)
    requires IsCanonical(canonical, known, pairs, live)
    ensures var once := Remap(values, canonical);
            && |once| == |values| && Remap(once, canonical) == once
            && (forall i :: 0 <= i < |values| && values[i] in live ==> once[i] == values[i])
  {
    var once := Remap(values, canonical);
    forall i | 0 <= i < |values|
      ensures Repoint(once[i], canonical) == once[i] && (values[i] in live ==> once[i] == values[i])
    {
      RepointSound(canonical, known, pairs, live, values[i]);
      if once[i] in live { LiveIdsFixed(canonical, known, pairs, live, once[i]); }
      if values[i] in live { LiveIdsFixed(canonical, known, pairs, live, values[i]); }
    }
  }
}
