/** Names that are still free: results in a notebook, and saved queries. */
module Naming {
  import opened Options
  import opened Strings

  // ---- Result names: q1, q2, df1, ... ----

  function Numbered(prefix: string, i: nat): string {
    prefix + Decimal(i)
  }

  lemma NumberedInjective(prefix: string, i: nat, j: nat)
    requires Numbered(prefix, i) == Numbered(prefix, j)
    ensures i == j
  {
    SamePrefix(prefix, Decimal(i), Decimal(j));
    DecimalInjective(i, j);
  }

  /** The numbered names from 1 to n. */
  function NamesTo(prefix: string, n: nat): (names: seq<string>)
    ensures |names| == n && forall k | 0 <= k < n :: names[k] == Numbered(prefix, k + 1)
  {
    if n == 0 then [] else NamesTo(prefix, n - 1) + [Numbered(prefix, n)]
  }

  lemma NamesToDistinct(prefix: string, n: nat)
    ensures Distinct(NamesTo(prefix, n))
  {
    forall i, j | 0 <= i < j < n
      ensures NamesTo(prefix, n)[i] != NamesTo(prefix, n)[j]
    {
      if Numbered(prefix, i + 1) == Numbered(prefix, j + 1) {
        NumberedInjective(prefix, i + 1, j + 1);
      }
    }
  }

  /** The name is the first free one counting from 1. */
  ghost predicate IsFirstFree(used: set<string>, prefix: string, i: nat) {
    i >= 1 && Numbered(prefix, i) !in used && forall j: nat | 1 <= j < i :: Numbered(prefix, j) in used
  }

  /** The least free index from i on, when all before it are used. */
  function FirstFree(used: set<string>, prefix: string, i: nat := 1): (n: nat)
    requires i >= 1 && forall j: nat | 1 <= j < i :: Numbered(prefix, j) in used
    ensures IsFirstFree(used, prefix, n) && n <= |used| + 1
    decreases |used| + 1 - i
  {
    TriedAreUsed(used, prefix, i - 1);
    if Numbered(prefix, i) in used then
      TriedAreUsed(used, prefix, i);
      FirstFree(used, prefix, i + 1)
    else i
  }

  /** `nextResultName` given the names in use: ends after at most one try more than there are names. */
  method NextResultName(used: set<string>, prefix: string) returns (name: string)
    ensures name == Numbered(prefix, FirstFree(used, prefix)) && name !in used
  {
    var i := 1;
    while Numbered(prefix, i) in used
      invariant 1 <= i <= |used| + 1
      invariant forall j: nat | 1 <= j < i :: Numbered(prefix, j) in used
      decreases |used| + 1 - i
    {
      TriedAreUsed(used, prefix, i);
      i := i + 1;
    }
    FirstFreeUnique(used, prefix, i, FirstFree(used, prefix));
    name := Numbered(prefix, i);
  }

  lemma TriedAreUsed(used: set<string>, prefix: string, n: nat)
    requires forall j: nat | 1 <= j <= n :: Numbered(prefix, j) in used
    ensures n <= |used|
  {
    NamesToDistinct(prefix, n);
    forall x | x in Elements(NamesTo(prefix, n))
      ensures x in used
    {
      var k :| 0 <= k < n && NamesTo(prefix, n)[k] == x;
      assert x == Numbered(prefix, k + 1);
    }
    Pigeonhole(NamesTo(prefix, n), used);
  }

  /** There is one such index, whatever the prefix and the names in use. */
  lemma FirstFreeUnique(used: set<string>, prefix: string, i: nat, j: nat)
    requires IsFirstFree(used, prefix, i) && IsFirstFree(used, prefix, j)
    ensures i == j
  {
  }

  // ---- Saved queries ----

  datatype SavedQuery = SavedQuery(id: Option<string>, name: string)

  function Key(name: string): string {
    Lower(Trim(name))
  }

  predicate IsSameQueryName(a: string, b: string) {
    Key(a) == Key(b)
  }

  function IdText(id: Option<string>): string {
    if id.None? then "undefined" else id.value
  }

  /** The query counts as another one than the one being saved. */
  predicate Other(q: SavedQuery, excludeId: Option<string>) {
    excludeId.None? || IdText(q.id) != excludeId.value
  }

  predicate Taken(name: string, existing: seq<SavedQuery>, excludeId: Option<string>) {
    exists k | 0 <= k < |existing| :: IsSameQueryName(existing[k].name, name) && Other(existing[k], excludeId)
  }

  /** A name is taken exactly by another query of that name, up to letter case and white space around it. */
  lemma TakenExactly(name: string, existing: seq<SavedQuery>, excludeId: Option<string>)
    ensures Taken(name, existing, excludeId)
            <==> exists q | q in existing ::
                   Lower(Trim(q.name)) == Lower(Trim(name))
                   && !(excludeId.Some? && (if q.id.Some? then q.id.value else "undefined") == excludeId.value)
  {
    hide Lower, Trim;
  }

  /** A query that is saved again may keep its name: it does not stand in its own way. */
  lemma OwnNameIsFree(name: string, existing: seq<SavedQuery>, id: string)
    requires forall q | q in existing && Lower(Trim(q.name)) == Lower(Trim(name)) :: q.id == Some(id)
    ensures !Taken(name, existing, Some(id))
  {
    TakenExactly(name, existing, Some(id));
  }

  /** How many other queries there are. */
  function Others(existing: seq<SavedQuery>, excludeId: Option<string>): nat {
    if existing == [] then 0
    else Others(existing[..|existing| - 1], excludeId) + if Other(existing[|existing| - 1], excludeId) then 1 else 0
  }

  function BaseName(preferred: string): string {
    if Trim(preferred) == "" then "Query chart" else Trim(preferred)
  }

  function Counter(i: nat): string {
    " (" + Decimal(i) + ")"
  }

  function Suffixed(base: string, i: nat): string {
    base + Counter(i)
  }

  method UniqueSavedQueryName(preferred: string, existing: seq<SavedQuery>, excludeId: Option<string>, stamp: string)
    returns (name: string)
    ensures !Taken(BaseName(preferred), existing, excludeId) ==> name == BaseName(preferred)
    ensures Taken(BaseName(preferred), existing, excludeId) ==>
              (name == BaseName(preferred) + " " + stamp
               && forall j | 2 <= j < 50 :: Taken(Suffixed(BaseName(preferred), j), existing, excludeId))
              || exists i | 2 <= i < 50 ::
                   name == Suffixed(BaseName(preferred), i) && !Taken(name, existing, excludeId)
                   && forall j | 2 <= j < i :: Taken(Suffixed(BaseName(preferred), j), existing, excludeId)
    ensures Others(existing, excludeId) <= 48 ==> !Taken(name, existing, excludeId)
    ensures existing == [] ==> name == if Trim(preferred) == "" then "Query chart" else Trim(preferred)
  {
    var base := BaseName(preferred);
    if !Taken(base, existing, excludeId) {
      return base;
    }
    for i := 2 to 50
      invariant forall j | 2 <= j < i :: Taken(Suffixed(base, j), existing, excludeId)
    {
      var candidate := Suffixed(base, i);
      if !Taken(candidate, existing, excludeId) {
        return candidate;
      }
    }
    AllTakenNeedsMany(preferred, existing, excludeId);
    name := base + " " + stamp;
  }

  /** The k-th name tried, as it is compared. */
  function TriedKey(base: string, k: nat): string {
    if k == 0 then Key(base) else Key(Suffixed(base, k + 1))
  }

  function TriedKeys(base: string, n: nat): (keys: seq<string>)
    ensures |keys| == n && forall k | 0 <= k < n :: keys[k] == TriedKey(base, k)
  {
    if n == 0 then [] else TriedKeys(base, n - 1) + [TriedKey(base, n - 1)]
  }

  function OtherKeys(existing: seq<SavedQuery>, excludeId: Option<string>): set<string> {
    if existing == [] then {}
    else
      var rest, last := OtherKeys(existing[..|existing| - 1], excludeId), existing[|existing| - 1];
      if Other(last, excludeId) then rest + {Key(last.name)} else rest
  }

  lemma {:induction false} OtherKeysSize(existing: seq<SavedQuery>, excludeId: Option<string>)
    ensures |OtherKeys(existing, excludeId)| <= Others(existing, excludeId)
  {
    if existing == [] {
    } else {
      OtherKeysSize(existing[..|existing| - 1], excludeId);
    }
  }

  lemma {:induction false} TakenHasKey(name: string, existing: seq<SavedQuery>, excludeId: Option<string>)
    requires Taken(name, existing, excludeId)
    ensures Key(name) in OtherKeys(existing, excludeId)
  {
    var k :| 0 <= k < |existing| && IsSameQueryName(existing[k].name, name) && Other(existing[k], excludeId);
    var front := existing[..|existing| - 1];
    if k < |front| {
      assert front[k] == existing[k];
      TakenHasKey(name, front, excludeId);
    }
  }

  lemma BaseNameTight(preferred: string)
    ensures Tight(BaseName(preferred)) && BaseName(preferred) != ""
  {
    TrimIsTight(preferred);
  }

  lemma CounterShape(i: nat)
    ensures Lower(Counter(i)) == Counter(i) && Counter(i) != "" && Counter(i)[|Counter(i)| - 1] == ')'
  {
    var s := Counter(i);
    forall k | 0 <= k < |s|
      ensures LowerChar(s[k]) == s[k]
    {
      if 2 <= k < |s| - 1 {
        assert s[k] == Decimal(i)[k - 2];
      }
    }
  }

  lemma CounterInjective(i: nat, j: nat)
    requires Counter(i) == Counter(j)
    ensures i == j
  {
    assert Decimal(i) == Counter(i)[2..|Counter(i)| - 1];
    assert Decimal(j) == Counter(j)[2..|Counter(j)| - 1];
    DecimalInjective(i, j);
  }

  lemma SuffixedKey(base: string, i: nat)
    requires Tight(base) && base != ""
    ensures Key(Suffixed(base, i)) == Lower(base) + Counter(i)
    ensures Key(base) == Lower(base)
  {
    CounterShape(i);
    var s := Suffixed(base, i);
    assert s[0] == base[0] && s[|s| - 1] == ')';
    TightTrimsToItself(s);
    TightTrimsToItself(base);
    LowerAppend(base, Counter(i));
  }

  lemma SuffixedKeysDiffer(base: string, i: nat, j: nat)
    requires Tight(base) && base != "" && i != j
    ensures Key(Suffixed(base, i)) != Key(Suffixed(base, j))
    ensures Key(Suffixed(base, i)) != Key(base)
  {
    SuffixedKey(base, i);
    SuffixedKey(base, j);
    CounterShape(i);
    if Key(Suffixed(base, i)) == Key(Suffixed(base, j)) {
      SamePrefix(Lower(base), Counter(i), Counter(j));
      CounterInjective(i, j);
    }
    assert |Lower(base) + Counter(i)| > |Lower(base)|;
  }

  lemma TriedKeyNew(base: string, i: nat, j: nat)
    requires Tight(base) && base != "" && i < j
    ensures TriedKey(base, i) != TriedKey(base, j)
  {
    hide Key, Suffixed, Tight;
    SuffixedKeysDiffer(base, j + 1, i + 1);
  }

  lemma TriedKeysDistinct(base: string, n: nat)
    requires Tight(base) && base != ""
    ensures Distinct(TriedKeys(base, n))
  {
    forall i: nat, j: nat | i < j < n
      ensures TriedKey(base, i) != TriedKey(base, j)
    {
      TriedKeyNew(base, i, j);
    }
  }

  /** Each other query blocks one of the 49 names tried at most. */
  lemma AllTakenNeedsMany(preferred: string, existing: seq<SavedQuery>, excludeId: Option<string>)
    requires Taken(BaseName(preferred), existing, excludeId)
    requires forall j | 2 <= j < 50 :: Taken(Suffixed(BaseName(preferred), j), existing, excludeId)
    ensures Others(existing, excludeId) >= 49
  {
    var base := BaseName(preferred);
    BaseNameTight(preferred);
    var keys := TriedKeys(base, 49);
    TriedKeysDistinct(base, 49);
    forall x | x in Elements(keys)
      ensures x in OtherKeys(existing, excludeId)
    {
      var k :| 0 <= k < 49 && keys[k] == x;
      TakenHasKey(if k == 0 then base else Suffixed(base, k + 1), existing, excludeId);
    }
    Pigeonhole(keys, OtherKeys(existing, excludeId));
    OtherKeysSize(existing, excludeId);
  }
}
