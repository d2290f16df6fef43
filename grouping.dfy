/** `groupby(key)[value].sum()` over (key, amount) entries. pandas drops the
    entries whose key is null (NaN or NaT) from every group. */
module Grouping {
  import opened Wrappers
  import opened Distinct

  datatype Entry<K> = Entry(key: Option<K>, amount: int)

  /** The sum over every entry that has a key. */
  function KeyedTotal<K>(es: seq<Entry<K>>): int {
    if |es| == 0 then 0
    else
      var e := es[|es| - 1];
      KeyedTotal(es[..|es| - 1]) + (if e.key.Some? then e.amount else 0)
  }

  /** The sum over the entries with key `k`: the value of group `k`. */
  function GroupTotal<K(==)>(es: seq<Entry<K>>, k: K): int {
    if |es| == 0 then 0
    else
      var e := es[|es| - 1];
      GroupTotal(es[..|es| - 1], k) + (if e.key == Some(k) then e.amount else 0)
  }

  predicate HasKey<K(==)>(es: seq<Entry<K>>, k: K) {
    exists i :: 0 <= i < |es| && es[i].key == Some(k)
  }

  /** One more entry carries its own key and no other. */
  lemma HasKeySnoc<K>(es: seq<Entry<K>>, e: Entry<K>, k: K)
    ensures HasKey(es + [e], k) <==> HasKey(es, k) || e.key == Some(k)
  {
    var s := es + [e];
    if HasKey(s, k) {
      var i :| 0 <= i < |s| && s[i].key == Some(k);
      if i < |es| {
        assert es[i] == s[i];
      }
    }
    if HasKey(es, k) {
      var i :| 0 <= i < |es| && es[i].key == Some(k);
      assert s[i] == es[i];
    }
    assert s[|es|] == e;
  }

  /** The non-null keys, in entry order, repeats included. */
  function PresentKeys<K>(es: seq<Entry<K>>): seq<K> {
    if |es| == 0 then []
    else
      var e := es[|es| - 1];
      PresentKeys(es[..|es| - 1]) + (if e.key.Some? then [e.key.value] else [])
  }

  lemma {:induction false} PresentKeysMembers<K>(es: seq<Entry<K>>, k: K)
    ensures k in PresentKeys(es) <==> HasKey(es, k)
  {
    if |es| > 0 {
      var init := es[..|es| - 1];
      PresentKeysMembers(init, k);
      if HasKey(es, k) {
        var i :| 0 <= i < |es| && es[i].key == Some(k);
        if i < |init| {
          assert init[i] == es[i];
        }
      }
      if HasKey(init, k) {
        var i :| 0 <= i < |init| && init[i].key == Some(k);
        assert es[i] == init[i];
      }
    }
  }

  /** The groups: each non-null key once, in order of first appearance. */
  function Keys<K(==)>(es: seq<Entry<K>>): (r: seq<K>)
    ensures NoDups(r)
  {
    Dedup(PresentKeys(es))
  }

  lemma KeysMembers<K>(es: seq<Entry<K>>, k: K)
    ensures k in Keys(es) <==> HasKey(es, k)
  {
    DedupMembers(PresentKeys(es), k);
    PresentKeysMembers(es, k);
  }

  /** A key that no entry carries has an empty group. */
  lemma {:induction false} GroupTotalAbsent<K>(es: seq<Entry<K>>, k: K)
    requires !HasKey(es, k)
    ensures GroupTotal(es, k) == 0
  {
    if |es| > 0 {
      var init := es[..|es| - 1];
      GroupTotalAbsent(init, k);
    }
  }

  /** The values of the groups `ks`, added up. */
  function SumGroups<K(==)>(es: seq<Entry<K>>, ks: seq<K>): int {
    if |ks| == 0 then 0
    else SumGroups(es, ks[..|ks| - 1]) + GroupTotal(es, ks[|ks| - 1])
  }

  /** One more entry adds its amount to its own group and to no other. */
  lemma {:induction false} SumGroupsSnoc<K>(init: seq<Entry<K>>, e: Entry<K>, ks: seq<K>)
    requires NoDups(ks)
    ensures SumGroups(init + [e], ks)
            == SumGroups(init, ks) + (if e.key.Some? && e.key.value in ks then e.amount else 0)
  {
    var es := init + [e];
    assert es[..|es| - 1] == init;
    if |ks| > 0 {
      var ks', k := ks[..|ks| - 1], ks[|ks| - 1];
      assert ks == ks' + [k];
      assert NoDups(ks');
      SumGroupsSnoc(init, e, ks');
      assert k !in ks';
    }
  }

  /** The grouped view (`groupby(...).sum()`): one entry per non-null key,
      holding the sum of that key's amounts. */
  function GroupBy<K(==)>(es: seq<Entry<K>>): (m: map<K, int>)
    ensures forall k :: k in m ==> HasKey(es, k) && m[k] == GroupTotal(es, k)
  {
    var m := GroupsOf(es, Keys(es));
    forall k | k in m ensures HasKey(es, k) {
      KeysMembers(es, k);
    }
    m
  }

  /** The groups `ks` with their values. */
  function GroupsOf<K(==)>(es: seq<Entry<K>>, ks: seq<K>): map<K, int> {
    map k | k in ks :: GroupTotal(es, k)
  }

  /** Every non-null key of the entries is a group of the view. */
  lemma GroupByCovers<K>(es: seq<Entry<K>>, k: K)
    requires HasKey(es, k)
    ensures k in GroupBy(es)
  {
    KeysMembers(es, k);
  }

  lemma KeyedTotalSnoc<K>(init: seq<Entry<K>>, e: Entry<K>)
    ensures KeyedTotal(init + [e]) == KeyedTotal(init) + (if e.key.Some? then e.amount else 0)
  {
    assert (init + [e])[..|init|] == init;
  }

  lemma GroupTotalSnoc<K>(init: seq<Entry<K>>, e: Entry<K>, k: K)
    ensures GroupTotal(init + [e], k) == GroupTotal(init, k) + (if e.key == Some(k) then e.amount else 0)
  {
    assert (init + [e])[..|init|] == init;
  }

  lemma SumGroupsLast<K>(es: seq<Entry<K>>, ks: seq<K>, k: K)
    ensures SumGroups(es, ks + [k]) == SumGroups(es, ks) + GroupTotal(es, k)
  {
    assert (ks + [k])[..|ks|] == ks;
  }

  /** One more entry opens a new group exactly when its key is new. */
  lemma KeysSnoc<K>(init: seq<Entry<K>>, e: Entry<K>)
    ensures Keys(init + [e]) ==
              if e.key.Some? && !HasKey(init, e.key.value) then Keys(init) + [e.key.value]
              else Keys(init)
  {
    var es := init + [e];
    assert es[..|es| - 1] == init;
    if e.key.Some? {
      var k := e.key.value;
      assert PresentKeys(es) == PresentKeys(init) + [k];
      DedupSnoc(PresentKeys(init), k);
      PresentKeysMembers(init, k);
    } else {
      assert PresentKeys(es) == PresentKeys(init) + [];
      assert PresentKeys(init) + [] == PresentKeys(init);
    }
  }

  /** The group values add up to the total over the keyed entries: no entry
      is counted twice and none with a key is lost. */
  lemma {:induction false} SumOfGroups<K>(es: seq<Entry<K>>)
    ensures SumGroups(es, Keys(es)) == KeyedTotal(es)
  {
    if |es| > 0 {
      var init, e := es[..|es| - 1], es[|es| - 1];
      assert es == init + [e];
      SumOfGroups(init);
      SumOfGroupsStep(init, e);
    }
  }

  /** One more entry adds its amount to both sides: to a new group when its
      key is new, to its existing group otherwise, and to neither side when
      it has no key. */
  lemma SumOfGroupsStep<K>(init: seq<Entry<K>>, e: Entry<K>)
    requires SumGroups(init, Keys(init)) == KeyedTotal(init)
    ensures SumGroups(init + [e], Keys(init + [e])) == KeyedTotal(init + [e])
  {
    KeyedTotalSnoc(init, e);
    if e.key.Some? && !HasKey(init, e.key.value) {
      StepNewKey(init, e);
    } else {
      StepSameGroups(init, e);
    }
  }

  lemma StepNewKey<K>(init: seq<Entry<K>>, e: Entry<K>)
    requires e.key.Some? && !HasKey(init, e.key.value)
    ensures SumGroups(init + [e], Keys(init + [e]))
            == SumGroups(init, Keys(init)) + e.amount
  {
    var es, k := init + [e], e.key.value;
    KeysSnoc(init, e);
    assert Keys(es) == Keys(init) + [k];
    KeysMembers(init, k);
    SumGroupsLast(es, Keys(init), k);
    SumGroupsSnoc(init, e, Keys(init));
    assert SumGroups(es, Keys(init)) == SumGroups(init, Keys(init));
    GroupTotalSnoc(init, e, k);
    GroupTotalAbsent(init, k);
  }

  lemma StepSameGroups<K>(init: seq<Entry<K>>, e: Entry<K>)
    requires !(e.key.Some? && !HasKey(init, e.key.value))
    ensures SumGroups(init + [e], Keys(init + [e]))
            == SumGroups(init, Keys(init)) + (if e.key.Some? then e.amount else 0)
  {
    KeysSnoc(init, e);
    assert Keys(init + [e]) == Keys(init);
    if e.key.Some? {
      KeysMembers(init, e.key.value);
    }
    SumGroupsSnoc(init, e, Keys(init));
  }

  /** The values of a map added up, each key once: `sum()` over the column
      of a grouped view. */
  ghost function SumValues<K>(m: map<K, int>): int
    decreases |m|
  {
    if m == map[] then 0
    else
      var k :| k in m;
      m[k] + SumValues(m - {k})
  }

  /** The sum of the values does not depend on the key taken first. */
  lemma {:induction false} SumValuesRemove<K>(m: map<K, int>, k: K)
    requires k in m
    ensures SumValues(m) == m[k] + SumValues(m - {k})
    decreases |m|
  {
    assert m != map[];
    var j :| j in m && SumValues(m) == m[j] + SumValues(m - {j});
    if j != k {
      var mj, mk := m - {j}, m - {k};
      SumValuesRemove(mj, k);
      SumValuesRemove(mk, j);
      assert mj - {k} == mk - {j};
    }
  }

  /** Adding up the groups `ks` one by one is the sum of the values of the
      map holding those groups. */
  lemma {:induction false} SumGroupsValues<K>(es: seq<Entry<K>>, ks: seq<K>)
    requires NoDups(ks)
    ensures SumGroups(es, ks) == SumValues(GroupsOf(es, ks))
  {
    if |ks| == 0 {
      assert GroupsOf(es, ks) == map[];
    } else {
      var init, k := ks[..|ks| - 1], ks[|ks| - 1];
      assert ks == init + [k];
      NoDupsSnoc(init, k);
      SumGroupsValues(es, init);
      SumValuesRemove(GroupsOf(es, ks), k);
      GroupsOfSnoc(es, init, k);
    }
  }

  lemma NoDupsSnoc<K>(init: seq<K>, k: K)
    requires NoDups(init + [k])
    ensures NoDups(init) && k !in init
  {
    var s := init + [k];
    forall i, j | 0 <= i < j < |init|
      ensures init[i] != init[j]
    {
      assert init[i] == s[i] && init[j] == s[j];
    }
    forall i | 0 <= i < |init|
      ensures init[i] != k
    {
      assert init[i] == s[i] && s[|init|] == k;
    }
  }

  lemma GroupsOfSnoc<K>(es: seq<Entry<K>>, init: seq<K>, k: K)
    requires k !in init
    ensures GroupsOf(es, init + [k]) - {k} == GroupsOf(es, init)
  {
    var ks := init + [k];
    forall k' ensures k' in ks && k' != k <==> k' in init {
      if k' in init {
        var i :| 0 <= i < |init| && init[i] == k';
        assert ks[i] == k';
      }
      if k' in ks && k' != k {
        var i :| 0 <= i < |ks| && ks[i] == k';
        assert i < |init| && init[i] == k';
      }
    }
  }

  /** The total of a grouped view, as pandas adds up its value column, is
      the sum over all entries that have a key. */
  lemma GroupByTotal<K>(es: seq<Entry<K>>)
    ensures SumValues(GroupBy(es)) == KeyedTotal(es)
  {
    assert GroupBy(es) == GroupsOf(es, Keys(es));
    SumGroupsValues(es, Keys(es));
    SumOfGroups(es);
  }
}
