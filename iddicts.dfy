/**
 * The `dict[int, int]` the worklog-id mappers build. Python dicts iterate
 * in insertion order, and `.values()` / `.items()` expose that order, so a
 * dict is its keys in insertion order together with its entries.
 */
module IdDicts {
  import opened Records

  datatype Dict = Dict(order: seq<int>, entries: map<int, int>)

  /** Every key appears once in the order, and the order holds exactly the keys. */
  ghost predicate Valid(d: Dict) {
    && (forall i, j :: 0 <= i < j < |d.order| ==> d.order[i] != d.order[j])
    && (forall key :: key in d.entries <==> key in d.order)
  }

  type IdDict = d: Dict | Valid(d) witness Dict([], map[])

  /** `{}` */
  const Empty: IdDict := Dict([], map[])

  /** `d[key] = value`: a new key goes to the end of the order, an existing key keeps its place. */
  function Set(d: IdDict, key: int, value: int): (r: IdDict)
    ensures r.entries == d.entries[key := value]
    ensures key in d.entries ==> r.order == d.order
    ensures key !in d.entries ==> r.order == d.order + [key]
  {
    if key in d.entries then Dict(d.order, d.entries[key := value])
    else Dict(d.order + [key], d.entries[key := value])
  }

  /** `d.values()`: the values in key insertion order. */
  function Values(d: IdDict): (vs: seq<int>)
    ensures |vs| == |d.order|
    ensures forall i :: 0 <= i < |d.order| ==> vs[i] == Entry(d, i)
  {
    seq(|d.order|, i requires 0 <= i < |d.order| => Entry(d, i))
  }

  /** `d.items()`: (key, value) pairs in key insertion order. */
  function Items(d: IdDict): (items: seq<IdPair>)
    ensures |items| == |d.order|
    ensures forall i :: 0 <= i < |d.order| ==> items[i] == IdPair(d.order[i], Entry(d, i))
  {
    seq(|d.order|, i requires 0 <= i < |d.order| => IdPair(d.order[i], Entry(d, i)))
  }

  /** The value of the i-th key in insertion order. */
  function Entry(d: IdDict, i: nat): (v: int)
    requires i < |d.order|
    ensures d.order[i] in d.entries && v == d.entries[d.order[i]]
  {
    assert d.order[i] in d.order;
    d.entries[d.order[i]]
  }

  /** `for map in pairs: d[map['tempoWorklogId']] = map['jiraWorklogId']` */
  function Extend(d: IdDict, pairs: seq<IdPair>): IdDict {
    if pairs == [] then d
    else
      var last := pairs[|pairs| - 1];
      Set(Extend(d, pairs[..|pairs| - 1]), last.tempoWorklogId, last.jiraWorklogId)
  }

  function TempoIds(pairs: seq<IdPair>): (ids: seq<int>)
    ensures |ids| == |pairs| && forall i :: 0 <= i < |pairs| ==> ids[i] == pairs[i].tempoWorklogId
  {
    seq(|pairs|, i requires 0 <= i < |pairs| => pairs[i].tempoWorklogId)
  }

  function JiraIds(pairs: seq<IdPair>): (ids: seq<int>)
    ensures |ids| == |pairs| && forall i :: 0 <= i < |pairs| ==> ids[i] == pairs[i].jiraWorklogId
  {
    seq(|pairs|, i requires 0 <= i < |pairs| => pairs[i].jiraWorklogId)
  }

  /** Adding pairs page by page is adding all of them at once. */
  lemma {:induction false} ExtendAppend(d: IdDict, a: seq<IdPair>, b: seq<IdPair>)
    ensures Extend(d, a + b) == Extend(Extend(d, a), b)
    decreases |b|
  {
    if b == [] {
      assert a + b == a;
    } else {
      var n := |b| - 1;
      assert (a + b)[..|a + b| - 1] == a + b[..n];
      ExtendAppend(d, a, b[..n]);
    }
  }

  /** The keys after adding `pairs` are the old keys and the tempo ids of the pairs. */
  lemma {:induction false} ExtendKeys(d: IdDict, pairs: seq<IdPair>, key: int)
    ensures key in Extend(d, pairs).entries <==> key in d.entries || key in TempoIds(pairs)
    decreases |pairs|
  {
    if pairs != [] {
      var n := |pairs| - 1;
      ExtendKeys(d, pairs[..n], key);
      assert TempoIds(pairs) == TempoIds(pairs[..n]) + [pairs[n].tempoWorklogId];
    }
  }

  /** Last write wins: a key takes the value of the last pair that carries it. */
  lemma {:induction false} ExtendLastWins(d: IdDict, pairs: seq<IdPair>, i: nat)
    requires i < |pairs|
    requires forall j :: i < j < |pairs| ==> pairs[j].tempoWorklogId != pairs[i].tempoWorklogId
    ensures var e := Extend(d, pairs).entries; pairs[i].tempoWorklogId in e && e[pairs[i].tempoWorklogId] == pairs[i].jiraWorklogId
    decreases |pairs|
  {
    var n := |pairs| - 1;
    if i < n {
      ExtendLastWins(d, pairs[..n], i);
    }
  }

  /** A key that no pair carries keeps its value. */
  lemma {:induction false} ExtendKeepsOthers(d: IdDict, pairs: seq<IdPair>, key: int)
    requires key in d.entries && key !in TempoIds(pairs)
    ensures key in Extend(d, pairs).entries && Extend(d, pairs).entries[key] == d.entries[key]
    decreases |pairs|
  {
    if pairs != [] {
      var n := |pairs| - 1;
      assert TempoIds(pairs) == TempoIds(pairs[..n]) + [pairs[n].tempoWorklogId];
      ExtendKeys(d, pairs[..n], key);
      ExtendKeepsOthers(d, pairs[..n], key);
    }
  }

  /** A dict never has more keys than were written to it. */
  lemma {:induction false} ExtendSize(d: IdDict, pairs: seq<IdPair>)
    ensures |d.order| <= |Extend(d, pairs).order| <= |d.order| + |pairs|
    ensures Extend(d, pairs).order[..|d.order|] == d.order
    decreases |pairs|
  {
    if pairs != [] {
      ExtendSize(d, pairs[..|pairs| - 1]);
    }
  }

  /** With distinct tempo ids every pair adds a new key: the order is the tempo ids of the pairs. */
  lemma {:induction false} ExtendDistinctOrder(pairs: seq<IdPair>)
    requires forall i, j :: 0 <= i < j < |pairs| ==> pairs[i].tempoWorklogId != pairs[j].tempoWorklogId
    ensures Extend(Empty, pairs).order == TempoIds(pairs)
    decreases |pairs|
  {
    if pairs != [] {
      var n := |pairs| - 1;
      ExtendDistinctOrder(pairs[..n]);
      ExtendKeys(Empty, pairs[..n], pairs[n].tempoWorklogId);
      assert TempoIds(pairs) == TempoIds(pairs[..n]) + [pairs[n].tempoWorklogId];
    }
  }

  /**
   * With distinct tempo ids, the order is the pairs' tempo ids and the values
   * are the pairs' jira ids: `.items()` gives back the pairs themselves.
   */
  lemma ExtendDistinct(pairs: seq<IdPair>)
    requires forall i, j :: 0 <= i < j < |pairs| ==> pairs[i].tempoWorklogId != pairs[j].tempoWorklogId
    ensures Extend(Empty, pairs).order == TempoIds(pairs)
    ensures Items(Extend(Empty, pairs)) == pairs
    ensures Values(Extend(Empty, pairs)) == JiraIds(pairs)
  {
    var d := Extend(Empty, pairs);
    ExtendDistinctOrder(pairs);
    forall i | 0 <= i < |pairs|
      ensures Entry(d, i) == pairs[i].jiraWorklogId
    {
      ExtendLastWins(Empty, pairs, i);
    }
    assert Items(d) == pairs;
    assert Values(d) == JiraIds(pairs);
  }
}
