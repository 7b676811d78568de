/** Message trees, and what laying a locale's messages over the English ones gives. */
module Messages {
  import opened Options

  /** JSON messages: an object, or anything else (texts, numbers, lists, null). */
  datatype Msg = Leaf(value: string) | Obj(entries: map<string, Msg>)

  /** The message at a path of keys. */
  function Get(m: Msg, path: seq<string>): Option<Msg>
    decreases |path|
  {
    if path == [] then Some(m)
    else if m.Obj? && path[0] in m.entries then Get(m.entries[path[0]], path[1..])
    else None
  }

  /** Objects merge key by key; otherwise the locale wins. */
  function Merge(en: Msg, loc: Msg): Msg
    decreases en, 1
  {
    if en.Obj? && loc.Obj? then Obj(map k | k in en.entries.Keys + loc.entries.Keys :: Merged(en, loc, k)) else loc
  }

  /** What a key has after the merge of two objects. */
  function Merged(en: Msg, loc: Msg, k: string): Msg
    requires en.Obj? && loc.Obj? && (k in en.entries || k in loc.entries)
    decreases en, 0
  {
    if k !in loc.entries then en.entries[k]
    else if k !in en.entries then loc.entries[k]
    else Merge(en.entries[k], loc.entries[k])
  }

  lemma MergedEverywhere(en: Msg, loc: Msg, entries: map<string, Msg>)
    requires en.Obj? && loc.Obj? && entries.Keys == en.entries.Keys + loc.entries.Keys
    requires forall k | k in entries :: entries[k] == Merged(en, loc, k)
    ensures Obj(entries) == Merge(en, loc)
  {
    assert entries == Merge(en, loc).entries;
  }

  /** The locale has a leaf on the way to the path. */
  predicate Blocked(loc: Msg, path: seq<string>)
    decreases |path|
  {
    path != [] && (loc.Leaf? || (path[0] in loc.entries && Blocked(loc.entries[path[0]], path[1..])))
  }

  /** The message at some proper prefix of the path is a leaf. */
  ghost predicate LeafOnTheWay(loc: Msg, path: seq<string>) {
    exists k | 0 <= k < |path| :: Get(loc, path[..k]).Some? && Get(loc, path[..k]).value.Leaf?
  }

  lemma {:induction false} BlockedIsLeafOnTheWay(loc: Msg, path: seq<string>)
    ensures Blocked(loc, path) <==> LeafOnTheWay(loc, path)
    decreases |path|
  {
    if path == [] {
    } else {
      assert path[..0] == [];
      if loc.Obj? && path[0] in loc.entries {
        var below := loc.entries[path[0]];
        BlockedIsLeafOnTheWay(below, path[1..]);
        forall k | 0 < k < |path|
          ensures Get(loc, path[..k]) == Get(below, path[1..][..k - 1])
        {
          assert path[..k][1..] == path[1..][..k - 1];
        }
        if k :| 0 <= k < |path| - 1 && Get(below, path[1..][..k]).Some? && Get(below, path[1..][..k]).value.Leaf? {
          assert Get(loc, path[..k + 1]) == Get(below, path[1..][..k]);
        }
      } else if loc.Obj? {
        forall k | 0 < k < |path|
          ensures Get(loc, path[..k]) == None
        {
          assert path[..k][0] == path[0];
        }
      }
    }
  }

  /** What is at any path after the merge. */
  lemma {:induction false} GetMerged(en: Msg, loc: Msg, path: seq<string>)
    ensures Get(Merge(en, loc), path)
            == if Get(loc, path).Some? then
                 Some(if Get(en, path).Some? then Merge(Get(en, path).value, Get(loc, path).value)
                      else Get(loc, path).value)
               else if Blocked(loc, path) then None
               else Get(en, path)
    decreases |path|
  {
    if path != [] && en.Obj? && loc.Obj? && path[0] in en.entries && path[0] in loc.entries {
      GetMerged(en.entries[path[0]], loc.entries[path[0]], path[1..]);
    }
  }

  /**
    An English leaf survives exactly when the locale neither has something in its place nor a leaf on
    the way to it; a locale that has the very same leaf there makes no difference.
  */
  lemma EnglishLeafSurvives(en: Msg, loc: Msg, path: seq<string>)
    requires Get(en, path).Some? && Get(en, path).value.Leaf?
    ensures Get(Merge(en, loc), path) == Get(en, path)
            <==> Get(loc, path) == Get(en, path) || (Get(loc, path) == None && !LeafOnTheWay(loc, path))
  {
    BlockedIsLeafOnTheWay(loc, path);
    GetMerged(en, loc, path);
  }

  /** A leaf of the locale is never lost. */
  lemma LocaleLeafStays(en: Msg, loc: Msg, path: seq<string>)
    requires Get(loc, path).Some? && Get(loc, path).value.Leaf?
    ensures Get(Merge(en, loc), path) == Get(loc, path)
  {
    GetMerged(en, loc, path);
  }

  lemma {:induction false} MergeWithItself(m: Msg)
    ensures Merge(m, m) == m
    decreases m
  {
    if m.Obj? {
      forall k | k in m.entries
        ensures Merge(m.entries[k], m.entries[k]) == m.entries[k]
      {
        MergeWithItself(m.entries[k]);
      }
      assert Merge(m, m).entries == m.entries;
    }
  }

  /** Merging English in again changes nothing. */
  lemma {:induction false} MergeAgain(en: Msg, loc: Msg)
    ensures Merge(en, Merge(en, loc)) == Merge(en, loc)
    decreases en
  {
    if en.Obj? && loc.Obj? {
      var once := Merge(en, loc);
      forall k | k in en.entries
        ensures Merge(en.entries[k], once.entries[k]) == once.entries[k]
      {
        assert once.entries[k] == Merged(en, loc, k);
        if k in loc.entries {
          MergeAgain(en.entries[k], loc.entries[k]);
        } else {
          MergeWithItself(en.entries[k]);
        }
      }
      assert Merge(en, once).entries == once.entries;
    }
  }

  // ---- What is missing ----

  /** The path is the highest place at which English has something and the locale, an object so far, has nothing. */
  predicate IsMissing(en: Msg, loc: Msg, path: seq<string>)
    decreases |path|
  {
    && path != [] && en.Obj? && loc.Obj? && path[0] in en.entries
    && if path[0] in loc.entries then IsMissing(en.entries[path[0]], loc.entries[path[0]], path[1..]) else |path| == 1
  }

  function Missing(en: Msg, loc: Msg): (paths: set<seq<string>>)
    decreases en
  {
    if en.Obj? && loc.Obj? then MissingUnder(en, loc, en.entries.Keys) else {}
  }

  /** The missing paths that begin with one of the keys. */
  function MissingUnder(en: Msg, loc: Msg, keys: set<string>): set<seq<string>>
    requires en.Obj? && loc.Obj? && keys <= en.entries.Keys
    decreases en, 0
  {
    (set k | k in keys && k !in loc.entries :: [k])
    + (set k, p | k in keys && k in loc.entries && p in Missing(en.entries[k], loc.entries[k]) :: [k] + p)
  }

  lemma {:induction false} MissingIs(en: Msg, loc: Msg, path: seq<string>)
    ensures path in Missing(en, loc) <==> IsMissing(en, loc, path)
    decreases |path|
  {
    if en.Obj? && loc.Obj? && path != [] && path[0] in en.entries {
      var k := path[0];
      assert path == [k] + path[1..];
      if k in loc.entries {
        MissingIs(en.entries[k], loc.entries[k], path[1..]);
      } else if |path| == 1 {
        assert path == [k];
      }
    }
  }

  /** A missing path gets the English message, which is then there. */
  lemma {:induction false} MissingIsFilled(en: Msg, loc: Msg, path: seq<string>)
    requires IsMissing(en, loc, path)
    ensures Get(loc, path) == None && Get(en, path).Some? && Get(Merge(en, loc), path) == Get(en, path)
    decreases |path|
  {
    if path[0] in loc.entries {
      MissingIsFilled(en.entries[path[0]], loc.entries[path[0]], path[1..]);
    }
  }

  lemma {:induction false} NothingMissing(en: Msg, loc: Msg)
    ensures Missing(en, loc) == {} <==> Merge(en, loc) == loc
    decreases en
  {
    if en.Obj? && loc.Obj? {
      forall k | k in en.entries && k in loc.entries
        ensures Missing(en.entries[k], loc.entries[k]) == {} <==> Merge(en.entries[k], loc.entries[k]) == loc.entries[k]
      {
        NothingMissing(en.entries[k], loc.entries[k]);
      }
      if Missing(en, loc) == {} {
        NoMissingKey(en, loc);
        assert Merge(en, loc).entries == loc.entries;
      } else {
        var path :| path in Missing(en, loc);
        MissingIs(en, loc, path);
        MissingIsFilled(en, loc, path);
      }
    }
  }

  lemma MissingBelow(en: Msg, loc: Msg, k: string)
    requires en.Obj? && loc.Obj? && k in en.entries
    ensures k !in loc.entries ==> [k] in Missing(en, loc)
    ensures k in loc.entries ==> forall p | p in Missing(en.entries[k], loc.entries[k]) :: [k] + p in Missing(en, loc)
  {
  }

  lemma NoMissingKey(en: Msg, loc: Msg)
    requires en.Obj? && loc.Obj? && Missing(en, loc) == {}
    ensures forall k | k in en.entries :: k in loc.entries && Missing(en.entries[k], loc.entries[k]) == {}
  {
    forall k | k in en.entries
      ensures k in loc.entries && Missing(en.entries[k], loc.entries[k]) == {}
    {
      MissingBelow(en, loc, k);
    }
  }

  function Behind(k: string, paths: set<seq<string>>): set<seq<string>> {
    set p | p in paths :: [k] + p
  }

  lemma BehindInjective(k: string, p: seq<string>, q: seq<string>)
    requires [k] + p == [k] + q
    ensures p == q
  {
    assert ([k] + p)[1..] == p && ([k] + q)[1..] == q;
  }

  lemma {:induction false} BehindSize(k: string, paths: set<seq<string>>)
    ensures |Behind(k, paths)| == |paths|
  {
    if paths == {} {
    } else {
      var p :| p in paths;
      var rest := paths - {p};
      BehindSize(k, rest);
      assert Behind(k, paths) == Behind(k, rest) + {[k] + p};
      forall q | q in rest
        ensures [k] + q != [k] + p
      {
        if [k] + q == [k] + p {
          BehindInjective(k, p, q);
        }
      }
    }
  }

  /** How much one key adds to the count. */
  function MissingAt(en: Msg, loc: Msg, k: string): set<seq<string>>
    requires en.Obj? && loc.Obj? && k in en.entries
  {
    if k !in loc.entries then {[k]} else Behind(k, Missing(en.entries[k], loc.entries[k]))
  }

  lemma OneMoreKeySplits(en: Msg, loc: Msg, keys: set<string>, k: string)
    requires en.Obj? && loc.Obj? && keys <= en.entries.Keys && k in en.entries.Keys - keys
    ensures MissingUnder(en, loc, keys + {k}) == MissingUnder(en, loc, keys) + MissingAt(en, loc, k)
    ensures MissingUnder(en, loc, keys) !! MissingAt(en, loc, k)
  {
    hide Missing;
    assert forall p | p in MissingUnder(en, loc, keys) :: p[0] in keys;
  }

  lemma OneMoreKey(en: Msg, loc: Msg, keys: set<string>, k: string)
    requires en.Obj? && loc.Obj? && keys <= en.entries.Keys && k in en.entries.Keys - keys
    ensures |MissingUnder(en, loc, keys + {k})|
            == |MissingUnder(en, loc, keys)|
               + if k in loc.entries then |Missing(en.entries[k], loc.entries[k])| else 1
  {
    hide Missing, MissingUnder;
    OneMoreKeySplits(en, loc, keys, k);
    if k in loc.entries {
      BehindSize(k, Missing(en.entries[k], loc.entries[k]));
    }
  }

  // ---- The merge of the running application ----

  /** The result so far, with the todo keys of the locale not laid over English yet. */
  ghost predicate LaidOver(result: map<string, Msg>, en: Msg, loc: Msg, todo: set<string>)
    requires en.Obj? && loc.Obj? && todo <= loc.entries.Keys
  {
    && result.Keys == en.entries.Keys + (loc.entries.Keys - todo)
    && forall k | k in result :: result[k] == if k in todo then en.entries[k] else Merged(en, loc, k)
  }

  lemma LaidOneMore(result: map<string, Msg>, en: Msg, loc: Msg, todo: set<string>, key: string)
    requires en.Obj? && loc.Obj? && todo <= loc.entries.Keys && key in todo && LaidOver(result, en, loc, todo)
    ensures LaidOver(result[key := Merged(en, loc, key)], en, loc, todo - {key})
  {
  }

  lemma MergedCases(en: Msg, loc: Msg, k: string)
    requires en.Obj? && loc.Obj? && k in loc.entries
    ensures Merged(en, loc, k)
            == if k in en.entries && en.entries[k].Obj? && loc.entries[k].Obj? then Merge(en.entries[k], loc.entries[k])
               else loc.entries[k]
  {
  }

  /** `mergeMessagesWithEnglishFallback`: a new object, filled key by key; neither argument changes. */
  method MergeMessagesWithEnglishFallback(english: map<string, Msg>, locale: map<string, Msg>)
    returns (result: map<string, Msg>)
    ensures Obj(result) == Merge(Obj(english), Obj(locale))
    decreases Obj(english)
  {
    hide Merge, Merged, LaidOver;
    ghost var en, loc := Obj(english), Obj(locale);
    result := english;
    var todo := locale.Keys;
    assert LaidOver(result, en, loc, todo) by { NothingLaid(en, loc); }
    while todo != {}
      invariant todo <= locale.Keys && LaidOver(result, en, loc, todo)
      decreases |todo|
    {
      var key :| key in todo;
      LaidOneMore(result, en, loc, todo, key);
      MergedCases(en, loc, key);
      if key in english && english[key].Obj? && locale[key].Obj? {
        var below := MergeMessagesWithEnglishFallback(english[key].entries, locale[key].entries);
        result := result[key := Obj(below)];
      } else {
        result := result[key := locale[key]];
      }
      todo := todo - {key};
    }
    AllLaid(result, en, loc);
  }

  lemma NothingLaid(en: Msg, loc: Msg)
    requires en.Obj? && loc.Obj?
    ensures LaidOver(en.entries, en, loc, loc.entries.Keys)
  {
  }

  lemma AllLaid(result: map<string, Msg>, en: Msg, loc: Msg)
    requires en.Obj? && loc.Obj? && LaidOver(result, en, loc, {})
    ensures Obj(result) == Merge(en, loc)
  {
    MergedEverywhere(en, loc, result);
  }
}
