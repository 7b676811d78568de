/** The merges of the locale scripts, which change one dict in place and share the other's subtrees with it. */
module MessageDicts {
  import opened Messages

  /** What a dict holds under a key: a nested dict, or anything else. */
  datatype Entry = Text(value: string) | Nested(dict: Dict)

  class Dict {
    var items: map<string, Entry>
    ghost var repr: set<Dict>

    /** A tree of dicts: every nested dict has its own part of repr. */
    ghost predicate Valid()
      reads this, repr
      decreases repr
    {
      && this in repr
      && (forall k | k in items && items[k].Nested? ::
            items[k].dict in repr && items[k].dict.repr < repr && this !in items[k].dict.repr && items[k].dict.Valid())
      && (forall k, l | k in items && l in items && k != l && items[k].Nested? && items[l].Nested? ::
            items[k].dict.repr !! items[l].dict.repr)
    }

    /** The messages as a value. */
    ghost function Tree(): (m: Msg)
      requires Valid()
      reads this, repr
      ensures m.Obj? && m.entries.Keys == items.Keys
      decreases repr
    {
      Obj(map k | k in items :: if items[k].Text? then Leaf(items[k].value) else items[k].dict.Tree())
    }
  }

  /** The entry holds the message, in dicts of that part only. */
  ghost predicate Holds(e: Entry, part: set<Dict>, m: Msg)
    reads part
  {
    match e
    case Text(v) => m == Leaf(v)
    case Nested(d) => d in part && d.repr <= part && d.Valid() && d.Tree() == m
  }

  /** The dicts below an entry. */
  ghost function Dicts(e: Entry): set<Dict>
    reads if e.Nested? then {e.dict} else {}
  {
    if e.Nested? then e.dict.repr else {}
  }

  /** The dicts below a key of either side. */
  type Shares = map<string, set<Dict>>

  ghost function Parts(d: Dict): Shares
    requires d.Valid()
    reads d, d.repr
  {
    map k | k in d.items :: Dicts(d.items[k])
  }

  ghost function Part(parts: Shares, k: string): set<Dict> {
    if k in parts then parts[k] else {}
  }

  /** The parts are apart from each other. */
  ghost predicate Apart(parts: Shares, all: set<Dict>) {
    && (forall k | k in parts :: parts[k] <= all)
    && (forall k, l | k in parts && l in parts && k != l :: parts[k] !! parts[l])
  }

  /** The dict's entries hold the messages, each in a part of its own of the dicts below. */
  ghost predicate Shape(d: Dict, below: set<Dict>, parts: Shares, msgs: map<string, Msg>)
    reads d`items, below
  {
    && parts.Keys == msgs.Keys == d.items.Keys && Apart(parts, below)
    && forall k | k in d.items :: Holds(d.items[k], parts[k], msgs[k])
  }

  lemma PartsOf(d: Dict)
    requires d.Valid()
    ensures d in d.repr && Shape(d, d.repr - {d}, Parts(d), d.Tree().entries) && Apart(Parts(d), d.repr - {d})
    ensures Parts(d).Keys == d.items.Keys
  {
  }

  lemma FromShape(d: Dict, parts: Shares, msgs: map<string, Msg>)
    requires d in d.repr && Shape(d, d.repr - {d}, parts, msgs)
    ensures d.Valid() && d.Tree() == Obj(msgs)
  {
    forall k, l | k in d.items && l in d.items && k != l && d.items[k].Nested? && d.items[l].Nested?
      ensures d.items[k].dict.repr !! d.items[l].dict.repr
    {
      assert parts[k] !! parts[l];
    }
    assert d.Valid();
    assert d.Tree().entries == msgs;
  }

  lemma ShapeGrows(d: Dict, below: set<Dict>, parts: Shares, msgs: map<string, Msg>, key: string, part: set<Dict>)
    requires Shape(d, below, parts, msgs) && key in d.items && parts[key] <= part && Apart(parts[key := part], below)
    ensures Shape(d, below, parts[key := part], msgs)
  {
  }

  lemma EntryOf(d: Dict, below: set<Dict>, parts: Shares, msgs: map<string, Msg>, key: string)
    requires Shape(d, below, parts, msgs)
    ensures key in d.items <==> key in msgs
    ensures key in d.items ==>
              key in parts && parts[key] <= below
              && Holds(d.items[key], parts[key], msgs[key]) && (d.items[key].Nested? <==> msgs[key].Obj?)
  {
  }

  /** `d[key] = e` */
  method Put(d: Dict, key: string, e: Entry, ghost below: set<Dict>, ghost parts: Shares, ghost msgs: map<string, Msg>,
             ghost part: set<Dict>, ghost m: Msg)
    requires d !in below && Shape(d, below, parts, msgs) && Holds(e, part, m) && Apart(parts[key := part], below)
    modifies d`items
    ensures Shape(d, below, parts[key := part], msgs[key := m])
  {
    hide Dict.Valid, Dict.Tree;
    ghost var was := d.items;
    d.items := d.items[key := e];
    assert forall k | k in was && k != key :: Holds(d.items[k], parts[k], msgs[k]);
  }

  // ---- The state of a merge, apart from the heap ----

  /**
    Both sides before a merge: the messages of the other dict and of the one changed, the dicts of each
    key, and all of them; and whether the other side's messages win.
  */
  datatype Sides = Sides(other: Msg, own: Msg, theirs: Shares, mine: Shares, from: set<Dict>, into: set<Dict>,
                         overwrite: bool)

  ghost predicate Ready(s: Sides) {
    && s.other.Obj? && s.own.Obj? && s.from !! s.into
    && s.theirs.Keys == s.other.entries.Keys && Apart(s.theirs, s.from)
    && s.mine.Keys == s.own.entries.Keys && Apart(s.mine, s.into)
  }

  ghost function Result(s: Sides): Msg {
    if s.overwrite then Merge(s.own, s.other) else Merge(s.other, s.own)
  }

  ghost function ResultAt(s: Sides, k: string): Msg
    requires Ready(s) && (k in s.own.entries || k in s.other.entries)
  {
    if s.overwrite then Merged(s.own, s.other, k) else Merged(s.other, s.own, k)
  }

  /** The dicts of a key on both sides. */
  ghost function Both(s: Sides, k: string): set<Dict> {
    Part(s.theirs, k) + Part(s.mine, k)
  }

  /** What the changed dict holds while the todo keys of the other one are left. */
  ghost predicate Filled(s: Sides, msgs: map<string, Msg>, parts: Shares, todo: set<string>)
    requires Ready(s)
  {
    && todo <= s.other.entries.Keys
    && msgs.Keys == parts.Keys && s.own.entries.Keys <= msgs.Keys
    && (s.other.entries.Keys - todo <= msgs.Keys <= s.own.entries.Keys + (s.other.entries.Keys - todo))
    && (forall k | k in msgs :: msgs[k] == if k in todo then s.own.entries[k] else ResultAt(s, k))
    && (forall k | k in parts :: parts[k] == if k in todo then s.mine[k] else Both(s, k))
  }

  lemma FilledStep(s: Sides, msgs: map<string, Msg>, parts: Shares, todo: set<string>, key: string)
    requires Ready(s) && Filled(s, msgs, parts, todo) && key in todo
    ensures key in s.other.entries && Filled(s, msgs[key := ResultAt(s, key)], parts[key := Both(s, key)], todo - {key})
  {
    hide ResultAt, Apart, Both;
  }

  /** What is known of a key still to do, and what the scripts decide for it. */
  lemma FilledKey(s: Sides, msgs: map<string, Msg>, parts: Shares, todo: set<string>, key: string)
    requires Ready(s) && Filled(s, msgs, parts, todo) && key in todo
    ensures key in msgs <==> key in s.own.entries
    ensures key in msgs ==> msgs[key] == s.own.entries[key] && parts[key] <= s.into && parts[key] <= Both(s, key)
    ensures s.theirs[key] <= Both(s, key) && s.theirs[key] <= s.from
    ensures ResultAt(s, key)
            == if key !in msgs then s.other.entries[key]
               else if s.other.entries[key].Obj? && msgs[key].Obj? then
                 if s.overwrite then Merge(msgs[key], s.other.entries[key]) else Merge(s.other.entries[key], msgs[key])
               else if s.overwrite then s.other.entries[key] else msgs[key]
  {
  }

  lemma BothWithin(s: Sides, k: string)
    requires Ready(s)
    ensures Both(s, k) <= s.into + s.from
  {
    assert Part(s.theirs, k) <= s.from && Part(s.mine, k) <= s.into;
  }

  lemma BothApart(s: Sides, k: string, l: string)
    requires Ready(s) && k != l
    ensures Both(s, k) !! Both(s, l)
  {
    assert Part(s.theirs, k) <= s.from && Part(s.theirs, l) <= s.from && Part(s.mine, k) <= s.into
           && Part(s.mine, l) <= s.into;
    assert Part(s.theirs, k) !! Part(s.theirs, l) && Part(s.mine, k) !! Part(s.mine, l);
  }

  lemma FilledApart(s: Sides, msgs: map<string, Msg>, parts: Shares, todo: set<string>)
    requires Ready(s) && Filled(s, msgs, parts, todo)
    ensures Apart(parts, s.into + s.from)
  {
    hide ResultAt;
    forall k | k in parts
      ensures parts[k] <= Both(s, k) && Both(s, k) <= s.into + s.from
    {
      BothWithin(s, k);
    }
    forall k, l | k in parts && l in parts && k != l
      ensures parts[k] !! parts[l]
    {
      BothApart(s, k, l);
    }
  }

  lemma FilledEnd(s: Sides, msgs: map<string, Msg>, parts: Shares)
    requires Ready(s) && Filled(s, msgs, parts, {})
    ensures Obj(msgs) == Result(s)
  {
    hide Merge, Merged, Apart;
    if s.overwrite {
      MergedEverywhere(s.own, s.other, msgs);
    } else {
      MergedEverywhere(s.other, s.own, msgs);
    }
  }

  // ---- One merge on the heap ----

  /** The two sides of a merge about to start. */
  ghost function SidesOf(from: Dict, into: Dict, overwrite: bool): Sides
    requires from.Valid() && into.Valid()
    reads from, from.repr, into, into.repr
  {
    Sides(from.Tree(), into.Tree(), Parts(from), Parts(into), from.repr - {from}, into.repr - {into}, overwrite)
  }

  lemma SidesReady(from: Dict, into: Dict, overwrite: bool)
    requires from.Valid() && into.Valid() && from.repr !! into.repr
    ensures var s := SidesOf(from, into, overwrite);
            Ready(s) && Filled(s, s.own.entries, s.mine, from.items.Keys)
            && Shape(into, s.into + s.from, s.mine, s.own.entries)
    ensures from in from.repr && into in into.repr
  {
    PartsOf(from);
    PartsOf(into);
  }

  /** The other side is still what it was. */
  ghost predicate IsSource(from: Dict, s: Sides)
    reads from, from.repr
  {
    from.Valid() && from.Tree() == s.other && Parts(from) == s.theirs && s.from == from.repr - {from}
  }

  /** The changed dict is in the middle of the merge. */
  ghost predicate IsTarget(into: Dict, s: Sides, msgs: map<string, Msg>, parts: Shares, todo: set<string>)
    reads into`items, s.into + s.from
  {
    Ready(s) && Filled(s, msgs, parts, todo) && Shape(into, s.into + s.from, parts, msgs)
  }

  /** All that the step for one key needs to know. */
  lemma AtKey(from: Dict, into: Dict, s: Sides, msgs: map<string, Msg>, parts: Shares, todo: set<string>, key: string)
    requires IsSource(from, s) && IsTarget(into, s, msgs, parts, todo) && key in todo && from.repr !! s.into
    ensures key in s.other.entries && key in from.items && key in s.theirs
    ensures Filled(s, msgs[key := ResultAt(s, key)], parts[key := Both(s, key)], todo - {key})
    ensures Apart(parts[key := Both(s, key)], s.into + s.from)
    ensures s.theirs[key] <= Both(s, key) && s.theirs[key] < from.repr
    ensures Holds(from.items[key], s.theirs[key], s.other.entries[key])
    ensures from.items[key].Nested? <==> s.other.entries[key].Obj?
    ensures key in into.items <==> key in msgs
    ensures key in s.own.entries <==> key in msgs
    ensures key in msgs ==> msgs[key] == s.own.entries[key]
    ensures key in msgs ==> key in parts && parts[key] <= s.into && parts[key] <= Both(s, key)
    ensures key in msgs ==> Holds(into.items[key], parts[key], msgs[key])
    ensures key in msgs ==> (into.items[key].Nested? <==> msgs[key].Obj?)
    ensures ResultAt(s, key)
            == if key !in msgs then s.other.entries[key]
               else if s.other.entries[key].Obj? && msgs[key].Obj? then
                 if s.overwrite then Merge(msgs[key], s.other.entries[key]) else Merge(s.other.entries[key], msgs[key])
               else if s.overwrite then s.other.entries[key] else msgs[key]
  {
    hide Merge, ResultAt, Filled, Both, Shape, Apart, Holds, Parts, Dict.Valid, Dict.Tree;
    PartsOf(from);
    FilledKey(s, msgs, parts, todo, key);
    FilledStep(s, msgs, parts, todo, key);
    FilledApart(s, msgs[key := ResultAt(s, key)], parts[key := Both(s, key)], todo - {key});
    EntryOf(from, s.from, s.theirs, s.other.entries, key);
    EntryOf(into, s.into + s.from, parts, msgs, key);
  }

  // ---- scripts/sync_i18n_from_en.py ----

  /** Copies into the target what it is missing; the copied subtrees are shared, and English stays as it was. */
  method DeepMergeMissing(base: Dict, target: Dict)
    requires base.Valid() && target.Valid() && base.repr !! target.repr
    modifies target.repr
    ensures target.Valid() && target.repr == old(target.repr) + (base.repr - {base})
    ensures target.Tree() == Merge(base.Tree(), old(target.Tree()))
    ensures base.Valid() && base.Tree() == old(base.Tree()) && base.repr == old(base.repr)
    decreases base.repr, 1
  {
    hide Merge, ResultAt, Ready, Filled, Shape, Apart, Holds, Parts, Both, Dict.Valid, Dict.Tree;
    ghost var s := SidesOf(base, target, false);
    ghost var msgs, parts := s.own.entries, s.mine;
    SidesReady(base, target, false);
    var todo := base.items.Keys;
    while todo != {}
      invariant base.repr == old(base.repr) && target.repr == old(target.repr) && base.items == old(base.items)
      invariant IsSource(base, s) && IsTarget(target, s, msgs, parts, todo) && todo <= base.items.Keys
      decreases |todo|
    {
      var key :| key in todo;
      AtKey(base, target, s, msgs, parts, todo, key);
      MergeMissingKey(base, target, key, s, msgs, parts, todo);
      msgs, parts := msgs[key := ResultAt(s, key)], parts[key := Both(s, key)];
      todo := todo - {key};
    }
    FilledEnd(s, msgs, parts);
    target.repr := target.repr + (base.repr - {base});
    assert target.repr - {target} == s.into + s.from;
    FromShape(target, parts, msgs);
  }

  /** One key of the loop. */
  method MergeMissingKey(base: Dict, target: Dict, key: string, ghost s: Sides, ghost msgs: map<string, Msg>,
                         ghost parts: Shares,
                         ghost todo: set<string>)
    requires IsSource(base, s) && IsTarget(target, s, msgs, parts, todo) && key in todo && !s.overwrite
    requires base.repr !! s.into && target !in s.into + base.repr && key in s.other.entries && key in base.items
    modifies target`items, s.into
    ensures Shape(target, s.into + s.from, parts[key := Both(s, key)], msgs[key := ResultAt(s, key)])
    decreases base.repr, 0
  {
    hide Merge, ResultAt, Ready, Filled, Shape, Apart, Parts, Both, Dict.Valid, Dict.Tree;
    ghost var below, part := s.into + s.from, Both(s, key);
    AtKey(base, target, s, msgs, parts, todo, key);
    if key !in target.items {
      Put(target, key, base.items[key], below, parts, msgs, part, s.other.entries[key]);
    } else if base.items[key].Nested? && target.items[key].Nested? {
      MergeMissingBelow(base.items[key].dict, target.items[key].dict, target, key, below, parts, msgs, part);
    } else {
      ShapeGrows(target, below, parts, msgs, key, part);
      assert msgs[key := msgs[key]] == msgs;
    }
  }

  /** The recursive call. */
  method MergeMissingBelow(base: Dict, d: Dict, target: Dict, key: string, ghost below: set<Dict>, ghost parts: Shares,
                           ghost msgs: map<string, Msg>, ghost part: set<Dict>)
    requires Shape(target, below, parts, msgs) && target !in below && key in target.items
             && target.items[key] == Nested(d)
    requires base.Valid() && base.repr !! parts[key] && parts[key] + base.repr <= part
             && Apart(parts[key := part], below)
    modifies parts[key]
    ensures Shape(target, below, parts[key := part], msgs[key := Merge(base.Tree(), msgs[key])])
    decreases base.repr, 2
  {
    hide Dict.Valid, Dict.Tree, Merge, Parts;
    PartsOf(base);
    DeepMergeMissing(base, d);
    assert Holds(target.items[key], part, Merge(base.Tree(), msgs[key]));
    forall k | k in target.items && k != key
      ensures Holds(target.items[k], parts[k], msgs[k])
    {
      assert parts[key := part][k] == parts[k];
    }
  }

  // ---- client/scripts/sync_locale_from_en.py ----

  /** The keys added once all but the todo ones are done. */
  ghost function CountedSoFar(en: Msg, loc: Msg, todo: set<string>): nat
    requires en.Obj? && loc.Obj?
  {
    |MissingUnder(en, loc, en.entries.Keys - todo)|
  }

  lemma CountStep(en: Msg, loc: Msg, todo: set<string>, key: string)
    requires en.Obj? && loc.Obj? && todo <= en.entries.Keys && key in todo
    ensures CountedSoFar(en, loc, todo - {key})
            == CountedSoFar(en, loc, todo)
               + if key in loc.entries then |Missing(en.entries[key], loc.entries[key])| else 1
  {
    OneMoreKey(en, loc, en.entries.Keys - todo, key);
    assert en.entries.Keys - todo + {key} == en.entries.Keys - (todo - {key});
  }

  lemma CountEnds(en: Msg, loc: Msg)
    requires en.Obj? && loc.Obj?
    ensures CountedSoFar(en, loc, en.entries.Keys) == 0 && CountedSoFar(en, loc, {}) == |Missing(en, loc)|
  {
    assert en.entries.Keys - en.entries.Keys == {} && en.entries.Keys - {} == en.entries.Keys;
    assert MissingUnder(en, loc, {}) == {};
  }

  /** Copies what is missing, as above, and counts the keys added. */
  method DeepMergeMissingCounting(target: Dict, source: Dict) returns (added: nat)
    requires source.Valid() && target.Valid() && source.repr !! target.repr
    modifies target.repr
    ensures target.Valid() && target.repr == old(target.repr) + (source.repr - {source})
    ensures target.Tree() == Merge(source.Tree(), old(target.Tree()))
    ensures source.Valid() && source.Tree() == old(source.Tree()) && source.repr == old(source.repr)
    ensures added == |Missing(source.Tree(), old(target.Tree()))|
    decreases source.repr, 1
  {
    hide Merge, ResultAt, Ready, Filled, Shape, Apart, Holds, Parts, Both, Missing, CountedSoFar, Dict.Valid, Dict.Tree;
    ghost var s := SidesOf(source, target, false);
    ghost var msgs, parts := s.own.entries, s.mine;
    SidesReady(source, target, false);
    added := 0;
    CountEnds(s.other, s.own);
    var todo := source.items.Keys;
    while todo != {}
      invariant source.repr == old(source.repr) && target.repr == old(target.repr) && source.items == old(source.items)
      invariant IsSource(source, s) && IsTarget(target, s, msgs, parts, todo) && todo <= source.items.Keys
      invariant added == CountedSoFar(s.other, s.own, todo)
      decreases |todo|
    {
      var key :| key in todo;
      AtKey(source, target, s, msgs, parts, todo, key);
      CountStep(s.other, s.own, todo, key);
      var n := MergeKeyCounting(source, target, key, s, msgs, parts, todo);
      added := added + n;
      msgs, parts := msgs[key := ResultAt(s, key)], parts[key := Both(s, key)];
      todo := todo - {key};
    }
    FilledEnd(s, msgs, parts);
    target.repr := target.repr + (source.repr - {source});
    assert target.repr - {target} == s.into + s.from;
    FromShape(target, parts, msgs);
  }

  method MergeKeyCounting(source: Dict, target: Dict, key: string, ghost s: Sides, ghost msgs: map<string, Msg>,
                          ghost parts: Shares,
                          ghost todo: set<string>) returns (n: nat)
    requires IsSource(source, s) && IsTarget(target, s, msgs, parts, todo) && key in todo && !s.overwrite
    requires source.repr !! s.into && target !in s.into + source.repr && key in s.other.entries && key in source.items
    modifies target`items, s.into
    ensures Shape(target, s.into + s.from, parts[key := Both(s, key)], msgs[key := ResultAt(s, key)])
    ensures n == if key in s.own.entries then |Missing(s.other.entries[key], s.own.entries[key])| else 1
    decreases source.repr, 0
  {
    hide Merge, ResultAt, Ready, Filled, Shape, Apart, Parts, Both, MissingUnder, Dict.Valid, Dict.Tree;
    ghost var below, part := s.into + s.from, Both(s, key);
    AtKey(source, target, s, msgs, parts, todo, key);
    if key !in target.items {
      Put(target, key, source.items[key], below, parts, msgs, part, s.other.entries[key]);
      n := 1;
    } else if source.items[key].Nested? && target.items[key].Nested? {
      n := MergeBelowCounting(source.items[key].dict, target.items[key].dict, target, key, below, parts, msgs, part);
    } else {
      ShapeGrows(target, below, parts, msgs, key, part);
      assert msgs[key := msgs[key]] == msgs;
      n := 0;
    }
  }

  method MergeBelowCounting(source: Dict, d: Dict, target: Dict, key: string, ghost below: set<Dict>,
                            ghost parts: Shares,
                            ghost msgs: map<string, Msg>, ghost part: set<Dict>) returns (n: nat)
    requires Shape(target, below, parts, msgs) && target !in below && key in target.items
             && target.items[key] == Nested(d)
    requires source.Valid() && source.repr !! parts[key] && parts[key] + source.repr <= part
             && Apart(parts[key := part], below)
    modifies parts[key]
    ensures Shape(target, below, parts[key := part], msgs[key := Merge(source.Tree(), msgs[key])])
    ensures n == |Missing(source.Tree(), msgs[key])|
    decreases source.repr, 2
  {
    hide Dict.Valid, Dict.Tree, Merge, Missing, Parts;
    PartsOf(source);
    n := DeepMergeMissingCounting(d, source);
    assert Holds(target.items[key], part, Merge(source.Tree(), msgs[key]));
    forall k | k in target.items && k != key
      ensures Holds(target.items[k], parts[k], msgs[k])
    {
      assert parts[key := part][k] == parts[k];
    }
  }

  // ---- client/scripts/sync_widget_block_i18n.py ----

  /** Lays a patch over the base: texts of the patch replace what is there. */
  method DeepMerge(base: Dict, patch: Dict)
    requires base.Valid() && patch.Valid() && base.repr !! patch.repr
    modifies base.repr
    ensures base.Valid() && base.repr == old(base.repr) + (patch.repr - {patch})
    ensures base.Tree() == Merge(old(base.Tree()), patch.Tree())
    ensures patch.Valid() && patch.Tree() == old(patch.Tree()) && patch.repr == old(patch.repr)
    decreases patch.repr, 1
  {
    hide Merge, ResultAt, Ready, Filled, Shape, Apart, Holds, Parts, Both, Dict.Valid, Dict.Tree;
    ghost var s := SidesOf(patch, base, true);
    ghost var msgs, parts := s.own.entries, s.mine;
    SidesReady(patch, base, true);
    var todo := patch.items.Keys;
    while todo != {}
      invariant patch.repr == old(patch.repr) && base.repr == old(base.repr) && patch.items == old(patch.items)
      invariant IsSource(patch, s) && IsTarget(base, s, msgs, parts, todo) && todo <= patch.items.Keys
      decreases |todo|
    {
      var key :| key in todo;
      AtKey(patch, base, s, msgs, parts, todo, key);
      MergeKey(patch, base, key, s, msgs, parts, todo);
      msgs, parts := msgs[key := ResultAt(s, key)], parts[key := Both(s, key)];
      todo := todo - {key};
    }
    FilledEnd(s, msgs, parts);
    base.repr := base.repr + (patch.repr - {patch});
    assert base.repr - {base} == s.into + s.from;
    FromShape(base, parts, msgs);
  }

  method MergeKey(patch: Dict, base: Dict, key: string, ghost s: Sides, ghost msgs: map<string, Msg>,
                  ghost parts: Shares,
                  ghost todo: set<string>)
    requires IsSource(patch, s) && IsTarget(base, s, msgs, parts, todo) && key in todo && s.overwrite
    requires patch.repr !! s.into && base !in s.into + patch.repr && key in s.other.entries && key in patch.items
    modifies base`items, s.into
    ensures Shape(base, s.into + s.from, parts[key := Both(s, key)], msgs[key := ResultAt(s, key)])
    decreases patch.repr, 0
  {
    hide Merge, ResultAt, Ready, Filled, Shape, Apart, Parts, Both, Dict.Valid, Dict.Tree;
    ghost var below, part := s.into + s.from, Both(s, key);
    AtKey(patch, base, s, msgs, parts, todo, key);
    if patch.items[key].Nested? && key in base.items && base.items[key].Nested? {
      MergeBelow(patch.items[key].dict, base.items[key].dict, base, key, below, parts, msgs, part);
    } else {
      Put(base, key, patch.items[key], below, parts, msgs, part, s.other.entries[key]);
    }
  }

  method MergeBelow(patch: Dict, d: Dict, base: Dict, key: string, ghost below: set<Dict>, ghost parts: Shares,
                    ghost msgs: map<string, Msg>, ghost part: set<Dict>)
    requires Shape(base, below, parts, msgs) && base !in below && key in base.items && base.items[key] == Nested(d)
    requires patch.Valid() && patch.repr !! parts[key] && parts[key] + patch.repr <= part
             && Apart(parts[key := part], below)
    modifies parts[key]
    ensures Shape(base, below, parts[key := part], msgs[key := Merge(msgs[key], patch.Tree())])
    decreases patch.repr, 2
  {
    hide Dict.Valid, Dict.Tree, Merge, Parts;
    PartsOf(patch);
    DeepMerge(d, patch);
    assert Holds(base.items[key], part, Merge(msgs[key], patch.Tree()));
    forall k | k in base.items && k != key
      ensures Holds(base.items[k], parts[k], msgs[k])
    {
      assert parts[key := part][k] == parts[k];
    }
  }
}
