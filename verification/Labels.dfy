/** Global labels: the maps of an event, their canonical encoding and its inverse. */
module Labels {
  import opened ByteOrder
  import opened LabelWire

  datatype LabelValue = LabelValue(value: Bytes, values: seq<Bytes>, global: bool)
  datatype NumericValue = NumericValue(value: nat, values: seq<nat>, global: bool)

  /** `GlobalLabels`; a nil map is the empty map. */
  datatype LabelMaps = LabelMaps(labels: map<Bytes, LabelValue>, numericLabels: map<Bytes, NumericValue>)

  function LabelOf(k: Bytes, v: LabelValue): Label {
    Label(k, v.value, v.values, [])
  }

  function NumericOf(k: Bytes, v: NumericValue): NumericLabel {
    NumericLabel(k, v.value, v.values, [])
  }

  function Keys(ls: seq<Label>): (r: seq<Bytes>)
    ensures |r| == |ls| && forall i :: 0 <= i < |r| ==> r[i] == ls[i].key
  {
    seq(|ls|, i requires 0 <= i < |ls| => ls[i].key)
  }

  function NumericKeys(ls: seq<NumericLabel>): (r: seq<Bytes>)
    ensures |r| == |ls| && forall i :: 0 <= i < |r| ==> r[i] == ls[i].key
  {
    seq(|ls|, i requires 0 <= i < |ls| => ls[i].key)
  }

  /** `ls` lists the entries of `m`, sorted by key. */
  ghost predicate Lists(m: map<Bytes, LabelValue>, ls: seq<Label>) {
    && Ascending(Keys(ls))
    && (forall k :: k in Keys(ls) <==> k in m)
    && (forall i :: 0 <= i < |ls| ==> ls[i].key in m && ls[i] == LabelOf(ls[i].key, m[ls[i].key]))
  }

  ghost predicate ListsNumeric(m: map<Bytes, NumericValue>, ls: seq<NumericLabel>) {
    && Ascending(NumericKeys(ls))
    && (forall k :: k in NumericKeys(ls) <==> k in m)
    && (forall i :: 0 <= i < |ls| ==> ls[i].key in m && ls[i] == NumericOf(ls[i].key, m[ls[i].key]))
  }

  ghost predicate ListsAll(x: LabelMaps, pb: GlobalLabels) {
    Lists(x.labels, pb.labels) && ListsNumeric(x.numericLabels, pb.numericLabels) && pb.unknown == []
  }

  function ZeroOf(v: nat): nat {
    if IsZero(v) then 0 else v
  }

  ghost predicate AgreeLabels(x: map<Bytes, LabelValue>, y: map<Bytes, LabelValue>) {
    x.Keys == y.Keys && forall k :: k in x ==> x[k].value == y[k].value && x[k].values == y[k].values
  }

  ghost predicate AgreeNumerics(x: map<Bytes, NumericValue>, y: map<Bytes, NumericValue>) {
    x.Keys == y.Keys && forall k :: k in x ==> ZeroOf(x[k].value) == ZeroOf(y[k].value) && x[k].values == y[k].values
  }

  /** The maps have the same keys and, key by key, the same Value and Values; the two zeros are one Value. */
  ghost predicate Agree(x: LabelMaps, y: LabelMaps) {
    AgreeLabels(x.labels, y.labels) && AgreeNumerics(x.numericLabels, y.numericLabels)
  }

  /** Agreeing maps have the same listing, whatever order the maps were iterated in. */
  lemma ListingUnique(x: map<Bytes, LabelValue>, p: seq<Label>, y: map<Bytes, LabelValue>, q: seq<Label>)
    requires Lists(x, p) && Lists(y, q) && AgreeLabels(x, y)
    ensures p == q
  {
    AscendingUnique(Keys(p), Keys(q));
    forall i | 0 <= i < |p|
      ensures p[i] == q[i]
    {
      assert Keys(p)[i] == Keys(q)[i];
    }
  }

  lemma NumericListingUnique(x: map<Bytes, NumericValue>, p: seq<NumericLabel>,
                             y: map<Bytes, NumericValue>, q: seq<NumericLabel>)
    requires ListsNumeric(x, p) && ListsNumeric(y, q) && AgreeNumerics(x, y)
    ensures NormalEach(p) == NormalEach(q)
  {
    AscendingUnique(NumericKeys(p), NumericKeys(q));
    forall i | 0 <= i < |p|
      ensures NormalNumeric(p[i]) == NormalNumeric(q[i])
    {
      assert NumericKeys(p)[i] == NumericKeys(q)[i];
    }
  }

  lemma LabelsFromListing(x: map<Bytes, LabelValue>, p: seq<Label>, y: map<Bytes, LabelValue>)
    requires Lists(x, p) && Lists(y, p)
    ensures AgreeLabels(x, y)
  {
    assert forall k :: k in x <==> k in y;
    forall k | k in x
      ensures x[k].value == y[k].value && x[k].values == y[k].values
    {
      var i :| 0 <= i < |p| && Keys(p)[i] == k;
    }
  }

  lemma NormalPointwise(p: seq<NumericLabel>, q: seq<NumericLabel>)
    requires NormalEach(p) == NormalEach(q)
    ensures |p| == |q| && NumericKeys(p) == NumericKeys(q)
    ensures forall i :: 0 <= i < |p| ==> NormalNumeric(p[i]) == NormalNumeric(q[i])
  {
    forall i | 0 <= i < |p|
      ensures NormalNumeric(p[i]) == NormalNumeric(q[i]) && p[i].key == q[i].key
    {
      assert NormalEach(p)[i] == NormalEach(q)[i];
    }
  }

  lemma NumericsFromListing(x: map<Bytes, NumericValue>, p: seq<NumericLabel>,
                            y: map<Bytes, NumericValue>, q: seq<NumericLabel>)
    requires ListsNumeric(x, p) && ListsNumeric(y, q) && NormalEach(p) == NormalEach(q)
    ensures AgreeNumerics(x, y)
  {
    NormalPointwise(p, q);
    hide Ascending, NormalEach;
    assert forall k :: k in x <==> k in y;
    forall k | k in x
      ensures ZeroOf(x[k].value) == ZeroOf(y[k].value) && x[k].values == y[k].values
    {
      assert k in NumericKeys(p);
      var i :| 0 <= i < |p| && NumericKeys(p)[i] == k;
      assert q[i].key == k && NormalNumeric(p[i]) == NormalNumeric(q[i]);
    }
  }

  /** The encoding is canonical: two label sets have equal bytes exactly when they agree. */
  lemma {:induction false} Canonical(x: LabelMaps, p: GlobalLabels, y: LabelMaps, q: GlobalLabels)
    requires ListsAll(x, p) && ListsAll(y, q) && Encodable(p) && Encodable(q)
    ensures Encoded(p) == Encoded(q) <==> Agree(x, y)
  {
    hide Encoded, Decoded, Encodable, Lists, ListsNumeric, AgreeLabels, AgreeNumerics, NormalEach;
    if Agree(x, y) {
      ListingUnique(x.labels, p.labels, y.labels, q.labels);
      NumericListingUnique(x.numericLabels, p.numericLabels, y.numericLabels, q.numericLabels);
      assert Normal(p) == Normal(q);
      EncodedNormal(p);
      EncodedNormal(q);
    }
    if Encoded(p) == Encoded(q) {
      RoundTrip(p);
      RoundTrip(q);
      assert Normal(p) == Normal(q);
      LabelsFromListing(x.labels, p.labels, y.labels);
      NumericsFromListing(x.numericLabels, p.numericLabels, y.numericLabels, q.numericLabels);
    }
  }

  // ----- from the message to maps

  /** `FromProto`, for labels: a later entry replaces an earlier one with the same key. */
  function LabelMap(ls: seq<Label>): map<Bytes, LabelValue> {
    if ls == [] then map[]
    else
      var l := ls[|ls| - 1];
      LabelMap(ls[..|ls| - 1])[l.key := LabelValue(l.value, l.values, true)]
  }

  function NumericMap(ls: seq<NumericLabel>): map<Bytes, NumericValue> {
    if ls == [] then map[]
    else
      var l := ls[|ls| - 1];
      NumericMap(ls[..|ls| - 1])[l.key := NumericValue(l.value, l.values, true)]
  }

  lemma {:induction false} LabelMapEntries(ls: seq<Label>)
    requires forall i, j :: 0 <= i < j < |ls| ==> ls[i].key != ls[j].key
    ensures forall k :: k in LabelMap(ls) <==> k in Keys(ls)
    ensures forall i :: 0 <= i < |ls| ==>
              ls[i].key in LabelMap(ls) && LabelMap(ls)[ls[i].key] == LabelValue(ls[i].value, ls[i].values, true)
  {
    if ls != [] {
      var n := |ls| - 1;
      LabelMapEntries(ls[..n]);
      assert Keys(ls) == Keys(ls[..n]) + [ls[n].key];
    }
  }

  lemma {:induction false} NumericMapEntries(ls: seq<NumericLabel>)
    requires forall i, j :: 0 <= i < j < |ls| ==> ls[i].key != ls[j].key
    ensures forall k :: k in NumericMap(ls) <==> k in NumericKeys(ls)
    ensures forall i :: 0 <= i < |ls| ==>
              ls[i].key in NumericMap(ls) && NumericMap(ls)[ls[i].key] == NumericValue(ls[i].value, ls[i].values, true)
  {
    if ls != [] {
      var n := |ls| - 1;
      NumericMapEntries(ls[..n]);
      assert NumericKeys(ls) == NumericKeys(ls[..n]) + [ls[n].key];
    }
  }

  lemma AscendingDistinct(keys: seq<Bytes>, i: nat, j: nat)
    requires Ascending(keys) && i < j < |keys|
    ensures keys[i] != keys[j]
  {
    LessIrreflexive(keys[i]);
    assert Less(keys[i], keys[j]);
  }

  lemma LabelMapOfListing(x: map<Bytes, LabelValue>, p: seq<Label>)
    requires Lists(x, p)
    ensures AgreeLabels(LabelMap(p), x)
    ensures forall k :: k in LabelMap(p) ==> LabelMap(p)[k].global
  {
    hide Ascending;
    forall i, j | 0 <= i < j < |p|
      ensures p[i].key != p[j].key
    {
      AscendingDistinct(Keys(p), i, j);
    }
    LabelMapEntries(p);
    hide LabelMap;
    forall k | k in LabelMap(p)
      ensures k in x && LabelMap(p)[k] == LabelValue(x[k].value, x[k].values, true)
    {
      var i :| 0 <= i < |p| && Keys(p)[i] == k;
    }
  }

  lemma NumericMapOfListing(x: map<Bytes, NumericValue>, p: seq<NumericLabel>)
    requires ListsNumeric(x, p)
    ensures AgreeNumerics(NumericMap(NormalEach(p)), x)
    ensures forall k :: k in NumericMap(NormalEach(p)) ==> NumericMap(NormalEach(p))[k].global
  {
    hide Ascending, NumericMap;
    var q := NormalEach(p);
    assert NumericKeys(q) == NumericKeys(p);
    forall i, j | 0 <= i < j < |q|
      ensures q[i].key != q[j].key
    {
      AscendingDistinct(NumericKeys(p), i, j);
    }
    NumericMapEntries(q);
    var m := NumericMap(q);
    assert m.Keys == x.Keys;
    forall k | k in m
      ensures k in x && m[k] == NumericValue(ZeroOf(x[k].value), x[k].values, true)
    {
      assert k in NumericKeys(p);
      var i :| 0 <= i < |p| && NumericKeys(p)[i] == k;
      assert q[i] == NormalNumeric(p[i]) && q[i].key == k;
    }
  }

  /** Decoding the canonical bytes returns the label set that was encoded, marked global. */
  lemma {:induction false} DecodeReturns(x: LabelMaps, p: GlobalLabels)
    requires ListsAll(x, p) && Encodable(p)
    ensures var r := Decoded(Encoded(p));
            && r.Read?
            && var y := LabelMaps(LabelMap(r.value.labels), NumericMap(r.value.numericLabels));
            && Agree(y, x)
            && (forall k :: k in y.labels ==> y.labels[k].global)
            && (forall k :: k in y.numericLabels ==> y.numericLabels[k].global)
  {
    hide Encoded, Decoded, Encodable, Lists, ListsNumeric, AgreeLabels, AgreeNumerics, NormalEach;
    RoundTrip(p);
    LabelMapOfListing(x.labels, p.labels);
    NumericMapOfListing(x.numericLabels, p.numericLabels);
  }

  /** An event encodes the labels marked global, and no others. */
  function GlobalOnly(x: LabelMaps): LabelMaps {
    LabelMaps(map k | k in x.labels && x.labels[k].global :: x.labels[k],
              map k | k in x.numericLabels && x.numericLabels[k].global :: x.numericLabels[k])
  }
}
