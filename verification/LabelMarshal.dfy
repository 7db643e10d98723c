/** The label code: collecting and sorting map entries, backward marshalling and the decoding loops. */
module LabelMarshal {
  import opened Varint
  import opened ByteOrder
  import opened LabelWire
  import opened LabelBuffers
  import opened Labels

  // ----- collecting and sorting

  ghost predicate InOrder<T>(ls: seq<T>, key: T -> Bytes) {
    forall i, j :: 0 <= i < j < |ls| ==> Less(key(ls[i]), key(ls[j]))
  }

  ghost predicate DistinctKeys<T>(ls: seq<T>, key: T -> Bytes) {
    forall i, j :: 0 <= i < j < |ls| ==> key(ls[i]) != key(ls[j])
  }

  /** `sort.Slice` by key, on entries with distinct keys. */
  method SortByKey<T>(ls: seq<T>, key: T -> Bytes) returns (r: seq<T>)
    requires DistinctKeys(ls, key)
    ensures InOrder(r, key) && |r| == |ls| && forall x :: x in r <==> x in ls
  {
    r := [];
    for i := 0 to |ls|
      invariant InOrder(r, key) && |r| == i && forall x :: x in r <==> x in ls[..i]
    {
      assert ls[..i + 1] == ls[..i] + [ls[i]];
      forall j | 0 <= j < |r|
        ensures key(r[j]) != key(ls[i])
      {
        assert r[j] in r;
        var k :| 0 <= k < i && ls[..i][k] == r[j];
      }
      r := Insert(r, ls[i], key);
    }
    assert ls[..|ls|] == ls;
  }

  method Insert<T>(s: seq<T>, x: T, key: T -> Bytes) returns (r: seq<T>)
    requires InOrder(s, key) && forall j :: 0 <= j < |s| ==> key(s[j]) != key(x)
    ensures InOrder(r, key) && |r| == |s| + 1 && forall y :: y in r <==> y in s || y == x
  {
    var at := |s|;
    while at > 0 && Less(key(x), key(s[at - 1]))
      invariant 0 <= at <= |s|
      invariant at < |s| ==> Less(key(x), key(s[at]))
    {
      at := at - 1;
    }
    if at > 0 {
      LessTotal(key(s[at - 1]), key(x));
    }
    InsertInOrder(s, x, key, at);
    r := s[..at] + [x] + s[at..];
    assert s == s[..at] + s[at..];
  }

  lemma InsertInOrder<T>(s: seq<T>, x: T, key: T -> Bytes, at: nat)
    requires InOrder(s, key) && at <= |s|
    requires at < |s| ==> Less(key(x), key(s[at]))
    requires at > 0 ==> Less(key(s[at - 1]), key(x))
    ensures InOrder(s[..at] + [x] + s[at..], key)
  {
    var r := s[..at] + [x] + s[at..];
    forall i, j | 0 <= i < j < |r|
      ensures Less(key(r[i]), key(r[j]))
    {
      if i == at {
        if j - 1 > at { LessTransitive(key(x), key(s[at]), key(s[j - 1])); }
      } else if j == at {
        if i < at - 1 { LessTransitive(key(s[i]), key(s[at - 1]), key(x)); }
      } else {
        var i', j' := if i < at then i else i - 1, if j < at then j else j - 1;
        assert r[i] == s[i'] && r[j] == s[j'];
      }
    }
  }

  /** The entries that are encoded: all of them, or those marked global. */
  ghost function Chosen(m: map<Bytes, LabelValue>, onlyGlobal: bool): map<Bytes, LabelValue> {
    map k | k in m && (!onlyGlobal || m[k].global) :: m[k]
  }

  ghost function ChosenNumeric(m: map<Bytes, NumericValue>, onlyGlobal: bool): map<Bytes, NumericValue> {
    map k | k in m && (!onlyGlobal || m[k].global) :: m[k]
  }

  /** The entries of a map in whatever order it is iterated, then sorted. */
  method CollectLabels(m: map<Bytes, LabelValue>, onlyGlobal: bool) returns (r: seq<Label>)
    ensures Lists(Chosen(m, onlyGlobal), r)
  {
    ghost var chosen := Chosen(m, onlyGlobal);
    var rest, ls: seq<Label> := m.Keys, [];
    while rest != {}
      invariant rest <= m.Keys && DistinctKeys(ls, (l: Label) => l.key)
      invariant forall l :: l in ls ==> l.key in chosen && l == LabelOf(l.key, chosen[l.key]) && l.key !in rest
      invariant forall k :: k in chosen ==> k in rest || LabelOf(k, chosen[k]) in ls
      decreases rest
    {
      var k :| k in rest;
      rest := rest - {k};
      if onlyGlobal && !m[k].global {
        continue;
      }
      ls := ls + [LabelOf(k, m[k])];
    }
    r := SortByKey(ls, (l: Label) => l.key);
    ListedLabels(chosen, r);
  }

  lemma ListedLabels(m: map<Bytes, LabelValue>, r: seq<Label>)
    requires InOrder(r, (l: Label) => l.key)
    requires forall l :: l in r ==> l.key in m && l == LabelOf(l.key, m[l.key])
    requires forall k :: k in m ==> LabelOf(k, m[k]) in r
    ensures Lists(m, r)
  {
    forall i, j | 0 <= i < j < |r|
      ensures Less(Keys(r)[i], Keys(r)[j])
    {
      var key := (l: Label) => l.key;
      assert Less(key(r[i]), key(r[j]));
    }
    forall k | k in m
      ensures k in Keys(r)
    {
      var i :| 0 <= i < |r| && r[i] == LabelOf(k, m[k]);
      assert Keys(r)[i] == k;
    }
    forall k | k in Keys(r)
      ensures k in m
    {
      var i :| 0 <= i < |r| && Keys(r)[i] == k;
      assert r[i] in r;
    }
  }

  method CollectNumerics(m: map<Bytes, NumericValue>, onlyGlobal: bool) returns (r: seq<NumericLabel>)
    ensures ListsNumeric(ChosenNumeric(m, onlyGlobal), r)
  {
    ghost var chosen := ChosenNumeric(m, onlyGlobal);
    var rest, ls: seq<NumericLabel> := m.Keys, [];
    while rest != {}
      invariant rest <= m.Keys && DistinctKeys(ls, (l: NumericLabel) => l.key)
      invariant forall l :: l in ls ==> l.key in chosen && l == NumericOf(l.key, chosen[l.key]) && l.key !in rest
      invariant forall k :: k in chosen ==> k in rest || NumericOf(k, chosen[k]) in ls
      decreases rest
    {
      var k :| k in rest;
      rest := rest - {k};
      if onlyGlobal && !m[k].global {
        continue;
      }
      ls := ls + [NumericOf(k, m[k])];
    }
    r := SortByKey(ls, (l: NumericLabel) => l.key);
    ListedNumerics(chosen, r);
  }

  lemma ListedNumerics(m: map<Bytes, NumericValue>, r: seq<NumericLabel>)
    requires InOrder(r, (l: NumericLabel) => l.key)
    requires forall l :: l in r ==> l.key in m && l == NumericOf(l.key, m[l.key])
    requires forall k :: k in m ==> NumericOf(k, m[k]) in r
    ensures ListsNumeric(m, r)
  {
    forall i, j | 0 <= i < j < |r|
      ensures Less(NumericKeys(r)[i], NumericKeys(r)[j])
    {
      var key := (l: NumericLabel) => l.key;
      assert Less(key(r[i]), key(r[j]));
    }
    forall k | k in m
      ensures k in NumericKeys(r)
    {
      var i :| 0 <= i < |r| && r[i] == NumericOf(k, m[k]);
      assert NumericKeys(r)[i] == k;
    }
    forall k | k in NumericKeys(r)
      ensures k in m
    {
      var i :| 0 <= i < |r| && NumericKeys(r)[i] == k;
      assert r[i] in r;
    }
  }

  /** `ToProto`. */
  method ToProto(gl: LabelMaps) returns (pb: GlobalLabels)
    ensures ListsAll(gl, pb)
  {
    var ls := CollectLabels(gl.labels, false);
    var ns := CollectNumerics(gl.numericLabels, false);
    assert Chosen(gl.labels, false) == gl.labels && ChosenNumeric(gl.numericLabels, false) == gl.numericLabels;
    pb := GlobalLabels(ls, ns, []);
  }

  /** `FromProto`. */
  method FromProto(pb: GlobalLabels) returns (gl: LabelMaps)
    ensures gl == LabelMaps(LabelMap(pb.labels), NumericMap(pb.numericLabels))
  {
    var ls: map<Bytes, LabelValue>, ns: map<Bytes, NumericValue> := map[], map[];
    for i := 0 to |pb.labels|
      invariant ls == LabelMap(pb.labels[..i])
    {
      assert pb.labels[..i + 1][..i] == pb.labels[..i];
      var l := pb.labels[i];
      ls := ls[l.key := LabelValue(l.value, l.values, true)];
    }
    for i := 0 to |pb.numericLabels|
      invariant ns == NumericMap(pb.numericLabels[..i])
    {
      assert pb.numericLabels[..i + 1][..i] == pb.numericLabels[..i];
      var l := pb.numericLabels[i];
      ns := ns[l.key := NumericValue(l.value, l.values, true)];
    }
    assert pb.labels[..|pb.labels|] == pb.labels && pb.numericLabels[..|pb.numericLabels|] == pb.numericLabels;
    gl := LabelMaps(ls, ns);
  }

  /** `MarshalBinary`: the canonical bytes, from any iteration order. */
  method MarshalBinary(gl: LabelMaps) returns (data: Bytes, pb: GlobalLabels)
    ensures ListsAll(gl, pb) && data == Encoded(pb)
  {
    pb := ToProto(gl);
    var buffer := MarshalVT(pb);
    data := buffer[..];
  }

  /** `marshalEventGlobalLabels`: the canonical bytes of the labels that are marked global. */
  method MarshalEventGlobalLabels(e: LabelMaps) returns (data: Bytes, pb: GlobalLabels)
    ensures ListsAll(GlobalOnly(e), pb) && data == Encoded(pb)
  {
    assert Chosen(e.labels, true) == GlobalOnly(e).labels;
    assert ChosenNumeric(e.numericLabels, true) == GlobalOnly(e).numericLabels;
    if |e.labels| == 0 && |e.numericLabels| == 0 {
      assert e.labels == map[] && e.numericLabels == map[];
      ListsNothing();
      return [], EmptyLabels();
    }
    var ls := CollectLabels(e.labels, true);
    var ns := CollectNumerics(e.numericLabels, true);
    pb := GlobalLabels(ls, ns, []);
    if |ls| == 0 && |ns| == 0 {
      assert pb == EmptyLabels();
      return [], pb;
    }
    var buffer := MarshalVT(pb);
    data := buffer[..];
  }

  /** What is read back from the labels of an event are exactly those that are marked global. */
  lemma {:induction false} OnlyGlobalsReturn(e: LabelMaps, pb: GlobalLabels)
    requires ListsAll(GlobalOnly(e), pb) && Encodable(pb)
    ensures var d := Decoded(Encoded(pb));
            && d.Read?
            && var m, n := LabelMap(d.value.labels), NumericMap(d.value.numericLabels);
            && (forall k :: k in m <==> k in e.labels && e.labels[k].global)
            && (forall k :: k in m ==> m[k] == e.labels[k])
            && (forall k :: k in n <==> k in e.numericLabels && e.numericLabels[k].global)
            && (forall k :: k in n ==> n[k].values == e.numericLabels[k].values && n[k].global
                                       && (n[k].value == e.numericLabels[k].value || (IsZero(n[k].value) && IsZero(e.numericLabels[k].value))))
  {
    DecodeReturns(GlobalOnly(e), pb);
    hide ListsAll, Encodable, Decoded, Encoded, LabelMap, NumericMap;
  }

  lemma ListsNothing()
    ensures ListsAll(LabelMaps(map[], map[]), EmptyLabels()) && Encoded(EmptyLabels()) == []
  {
    assert Keys([]) == [] && NumericKeys([]) == [];
  }

  /** `UnmarshalBinary`: canonical bytes give the label set back. */
  method UnmarshalBinary(data: Bytes) returns (r: Read<LabelMaps>)
    ensures var d := Decoded(data);
            r == if d.Failed? then Failed(d.error)
                 else Read(LabelMaps(LabelMap(d.value.labels), NumericMap(d.value.numericLabels)), |data|)
  {
    hide DecodeLabelsField;
    if |data| == 0 {
      return Read(LabelMaps(map[], map[]), 0);
    }
    var d := UnmarshalVT(data);
    if d.Failed? {
      return Failed(d.error);
    }
    var gl := FromProto(d.value);
    return Read(gl, |data|);
  }
}
