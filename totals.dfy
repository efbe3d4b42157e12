/** The figures the wealth summary shows: the cash balance, the metal holdings
    rolled up by type and purity, and the entry counts. */
module Totals {
  import opened Values
  import opened Storage

  /** `parseFloat` on a truthy field value, injected: it gives NaN or the exact
      value in the summary's fixed units. */
  type Parser = Value -> JsNumber

  /** `parseFloat(v || 0)`: a falsy value counts as 0. */
  function NumberOf(v: Option<Value>, parse: Parser): JsNumber
  {
    if Truthy(v) then parse(v.value) else Finite(0)
  }

  /** `parseFloat(entry[field] || 0)`. */
  function FieldNumber(entry: Record, field: string, parse: Parser): JsNumber
  {
    NumberOf(Get(entry, field), parse)
  }

  /** What each entry contributes to the sum of `field`. */
  function Numbers(entries: seq<Record>, field: string, parse: Parser): seq<JsNumber>
  {
    seq(|entries|, i requires 0 <= i < |entries| => FieldNumber(entries[i], field, parse))
  }

  /** `entries.reduce((sum, entry) => sum + parseFloat(entry[field] || 0), 0)`. */
  function FieldSum(entries: seq<Record>, field: string, parse: Parser): JsNumber
  {
    Sum(Numbers(entries, field, parse))
  }

  /** The cash balance. */
  function CashTotal(entries: seq<Record>, parse: Parser): JsNumber
  {
    FieldSum(entries, "amount", parse)
  }

  // ---------------------------------------------------------------------------
  // The sum

  lemma NumbersConcat(a: seq<Record>, b: seq<Record>, field: string, parse: Parser)
    ensures Numbers(a + b, field, parse) == Numbers(a, field, parse) + Numbers(b, field, parse)
  {
  }

  /** The sum over a concatenation is the sum of the sums. */
  lemma FieldSumConcat(a: seq<Record>, b: seq<Record>, field: string, parse: Parser)
    ensures FieldSum(a + b, field, parse) == Add(FieldSum(a, field, parse), FieldSum(b, field, parse))
  {
    NumbersConcat(a, b, field, parse);
    SumConcat(Numbers(a, field, parse), Numbers(b, field, parse));
  }

  /** Appending an entry adds its contribution. */
  lemma FieldSumSnoc(a: seq<Record>, e: Record, field: string, parse: Parser)
    ensures FieldSum(a + [e], field, parse) == Add(FieldSum(a, field, parse), FieldNumber(e, field, parse))
  {
    var ns := Numbers(a + [e], field, parse);
    assert ns[..|ns| - 1] == Numbers(a, field, parse);
  }

  /** The sum is NaN exactly when some entry's field parses to NaN. */
  lemma FieldSumNaN(entries: seq<Record>, field: string, parse: Parser)
    ensures FieldSum(entries, field, parse).NaN? <==>
            exists i :: 0 <= i < |entries| && FieldNumber(entries[i], field, parse).NaN?
  {
    var ns := Numbers(entries, field, parse);
    SumNaN(ns);
    assert forall i :: 0 <= i < |entries| ==> ns[i] == FieldNumber(entries[i], field, parse);
  }

  /** A singleton sums to its own field, so each entry contributes its parsed
      value; a missing, empty or zero field contributes 0. */
  lemma FieldSumSingle(entry: Record, field: string, parse: Parser)
    ensures FieldSum([entry], field, parse) == FieldNumber(entry, field, parse)
    ensures !Truthy(Get(entry, field)) ==> FieldSum([entry], field, parse) == Finite(0)
  {
    assert Numbers([], field, parse) == [];
    assert [] + [entry] == [entry];
    FieldSumSnoc([], entry, field, parse);
  }

  /** Inserting an entry whose field is missing, empty or zero anywhere leaves
      the sum as it was. */
  lemma FieldSumIgnoresFalsy(a: seq<Record>, entry: Record, b: seq<Record>, field: string, parse: Parser)
    requires !Truthy(Get(entry, field))
    ensures FieldSum(a + [entry] + b, field, parse) == FieldSum(a + b, field, parse)
  {
    FieldSumSnoc(a, entry, field, parse);
    FieldSumConcat(a + [entry], b, field, parse);
    FieldSumConcat(a, b, field, parse);
  }

  /** Amounts "100" and "-40.50" total 59.50 (in cents). */
  lemma CashTotalExample(parse: Parser)
    requires parse(Str("100")) == Finite(10000) && parse(Str("-40.50")) == Finite(-4050)
    ensures CashTotal([], parse) == Finite(0)
    ensures CashTotal([map["amount" := Str("100")], map["amount" := Str("-40.50")]], parse) == Finite(5950)
  {
    var e1: Record := map["amount" := Str("100")];
    var e2: Record := map["amount" := Str("-40.50")];
    assert Get(e1, "amount") == Some(Str("100"));
    assert Get(e2, "amount") == Some(Str("-40.50"));
    assert FieldNumber(e1, "amount", parse) == Finite(10000);
    assert FieldNumber(e2, "amount", parse) == Finite(-4050);
    FieldSumSingle(e1, "amount", parse);
    assert [e1, e2] == [e1] + [e2];
    FieldSumSnoc([e1], e2, "amount", parse);
  }

  // ---------------------------------------------------------------------------
  // The metals roll-up, stated for the whole list at once

  /** One row of the roll-up. */
  datatype MetalTotal = MetalTotal(metalType: Option<Value>, purity: Option<Value>, totalGrams: JsNumber)

  /** The group key `${metalType}-${purity}` of an entry. */
  function Key(entry: Record): string
  {
    ToJsString(Get(entry, "metalType")) + "-" + ToJsString(Get(entry, "purity"))
  }

  /** The same key read off a row. */
  function RowKey(g: MetalTotal): string
  {
    ToJsString(g.metalType) + "-" + ToJsString(g.purity)
  }

  function Grams(entry: Record, parse: Parser): JsNumber
  {
    FieldNumber(entry, "grams", parse)
  }

  predicate NoDuplicates(ks: seq<string>)
  {
    forall a, b :: 0 <= a < b < |ks| ==> ks[a] != ks[b]
  }

  /** The distinct keys of the entries, in order of first occurrence. */
  function GroupKeys(s: seq<Record>): seq<string>
  {
    if s == [] then []
    else
      var g := GroupKeys(s[..|s| - 1]);
      if Key(s[|s| - 1]) in g then g else g + [Key(s[|s| - 1])]
  }

  /** The keys of the roll-up are exactly the keys of the entries. */
  lemma {:induction false} GroupKeysComplete(s: seq<Record>)
    ensures forall k :: k in GroupKeys(s) <==> exists i :: 0 <= i < |s| && Key(s[i]) == k
  {
    if s != [] {
      var p := s[..|s| - 1];
      GroupKeysComplete(p);
      assert forall i :: 0 <= i < |p| ==> p[i] == s[i];
    }
  }

  /** Each key appears once. */
  lemma {:induction false} GroupKeysDistinct(s: seq<Record>)
    ensures NoDuplicates(GroupKeys(s))
  {
    if s != [] {
      GroupKeysDistinct(s[..|s| - 1]);
    }
  }

  /** The position of the first entry with key `k`. */
  function FirstIndex(s: seq<Record>, k: string): (f: nat)
    requires k in GroupKeys(s)
    ensures f < |s| && Key(s[f]) == k
    ensures forall j :: 0 <= j < f ==> Key(s[j]) != k
  {
    var p := s[..|s| - 1];
    assert forall j :: 0 <= j < |p| ==> s[j] == p[j];
    if k in GroupKeys(p) then FirstIndex(p, k)
    else
      GroupKeysComplete(p);
      |s| - 1
  }

  /** Keys come in order of their first occurrence in the entries. */
  lemma {:induction false} GroupKeysInFirstOccurrenceOrder(s: seq<Record>)
    ensures forall a, b :: 0 <= a < b < |GroupKeys(s)| ==>
              FirstIndex(s, GroupKeys(s)[a]) < FirstIndex(s, GroupKeys(s)[b])
  {
    if s != [] {
      var p := s[..|s| - 1];
      GroupKeysInFirstOccurrenceOrder(p);
      var ks := GroupKeys(s);
      forall a, b | 0 <= a < b < |ks|
        ensures FirstIndex(s, ks[a]) < FirstIndex(s, ks[b])
      {
        assert ks[a] in GroupKeys(p);
        if b < |GroupKeys(p)| {
          assert ks[b] in GroupKeys(p);
          assert GroupKeys(p)[a] == ks[a] && GroupKeys(p)[b] == ks[b];
        }
      }
    }
  }

  /** The grams of the entries with key `k`, added up in list order. */
  function GramsFor(s: seq<Record>, k: string, parse: Parser): JsNumber
  {
    if s == [] then Finite(0)
    else
      var t := GramsFor(s[..|s| - 1], k, parse);
      if Key(s[|s| - 1]) == k then Add(t, Grams(s[|s| - 1], parse)) else t
  }

  /** The entries with key `k`, in order. */
  function WithKey(s: seq<Record>, k: string): seq<Record>
  {
    if s == [] then []
    else WithKey(s[..|s| - 1], k) + (if Key(s[|s| - 1]) == k then [s[|s| - 1]] else [])
  }

  /** A group's grams are the sum of the grams of its own entries. */
  lemma {:induction false} GramsForIsSumOfItsEntries(s: seq<Record>, k: string, parse: Parser)
    ensures GramsFor(s, k, parse) == FieldSum(WithKey(s, k), "grams", parse)
  {
    if s != [] {
      var p := s[..|s| - 1];
      var e := s[|s| - 1];
      GramsForIsSumOfItsEntries(p, k, parse);
      if Key(e) == k {
        FieldSumSnoc(WithKey(p, k), e, "grams", parse);
      } else {
        assert WithKey(p, k) + [] == WithKey(p, k);
      }
    }
  }

  lemma {:induction false} GramsForAbsent(s: seq<Record>, k: string, parse: Parser)
    requires forall i :: 0 <= i < |s| ==> Key(s[i]) != k
    ensures GramsFor(s, k, parse) == Finite(0)
  {
    if s != [] {
      GramsForAbsent(s[..|s| - 1], k, parse);
    }
  }

  /** The row for key `k`: type and purity of the first such entry, and the
      grams of all of them. */
  function Group(s: seq<Record>, k: string, parse: Parser): MetalTotal
    requires k in GroupKeys(s)
  {
    var first := s[FirstIndex(s, k)];
    MetalTotal(Get(first, "metalType"), Get(first, "purity"), GramsFor(s, k, parse))
  }

  function GroupsOf(s: seq<Record>, ks: seq<string>, parse: Parser): seq<MetalTotal>
    requires forall k :: k in ks ==> k in GroupKeys(s)
  {
    seq(|ks|, j requires 0 <= j < |ks| => Group(s, ks[j], parse))
  }

  /** The roll-up `Object.values(metalsTotals)`: one row per distinct key, in
      order of first occurrence. */
  function MetalGroups(s: seq<Record>, parse: Parser): seq<MetalTotal>
  {
    GroupsOf(s, GroupKeys(s), parse)
  }

  /** Row j carries the j-th distinct key. */
  lemma MetalGroupsKeys(s: seq<Record>, parse: Parser)
    ensures |MetalGroups(s, parse)| == |GroupKeys(s)|
    ensures forall j :: 0 <= j < |GroupKeys(s)| ==> RowKey(MetalGroups(s, parse)[j]) == GroupKeys(s)[j]
  {
  }

  /** Row j belongs to the j-th distinct key: it carries that key, the type and
      purity of the first entry with it, and the sum of the grams of the
      entries with it. */
  lemma MetalGroupsRows(s: seq<Record>, parse: Parser)
    ensures |MetalGroups(s, parse)| == |GroupKeys(s)|
    ensures forall j :: 0 <= j < |GroupKeys(s)| ==>
              var g := MetalGroups(s, parse)[j];
              var first := s[FirstIndex(s, GroupKeys(s)[j])];
              && RowKey(g) == GroupKeys(s)[j]
              && g.metalType == Get(first, "metalType")
              && g.purity == Get(first, "purity")
              && g.totalGrams == FieldSum(WithKey(s, GroupKeys(s)[j]), "grams", parse)
  {
    var ks := GroupKeys(s);
    forall j | 0 <= j < |ks|
      ensures MetalGroups(s, parse)[j].totalGrams == FieldSum(WithKey(s, ks[j]), "grams", parse)
    {
      GramsForIsSumOfItsEntries(s, ks[j], parse);
    }
  }

  /** Every entry's key has a row, and every row's key is some entry's key. */
  lemma MetalGroupsCoverKeys(s: seq<Record>, parse: Parser)
    ensures forall i :: 0 <= i < |s| ==>
              exists j :: 0 <= j < |MetalGroups(s, parse)| && RowKey(MetalGroups(s, parse)[j]) == Key(s[i])
    ensures forall j :: 0 <= j < |MetalGroups(s, parse)| ==>
              exists i :: 0 <= i < |s| && Key(s[i]) == RowKey(MetalGroups(s, parse)[j])
  {
    MetalGroupsKeys(s, parse);
    RowsCoverKeys(s, MetalGroups(s, parse));
  }

  lemma RowsCoverKeys(s: seq<Record>, r: seq<MetalTotal>)
    requires |r| == |GroupKeys(s)|
    requires forall j :: 0 <= j < |r| ==> RowKey(r[j]) == GroupKeys(s)[j]
    ensures forall i :: 0 <= i < |s| ==> exists j :: 0 <= j < |r| && RowKey(r[j]) == Key(s[i])
    ensures forall j :: 0 <= j < |r| ==> exists i :: 0 <= i < |s| && Key(s[i]) == RowKey(r[j])
  {
    var ks := GroupKeys(s);
    GroupKeysComplete(s);
    forall i | 0 <= i < |s|
      ensures exists j :: 0 <= j < |r| && RowKey(r[j]) == Key(s[i])
    {
      assert Key(s[i]) in ks;
      var j :| 0 <= j < |ks| && ks[j] == Key(s[i]);
      assert RowKey(r[j]) == Key(s[i]);
    }
    forall j | 0 <= j < |r|
      ensures exists i :: 0 <= i < |s| && Key(s[i]) == RowKey(r[j])
    {
      assert ks[j] in ks;
    }
  }

  /** No two rows share a key. */
  lemma MetalGroupsDistinct(s: seq<Record>, parse: Parser)
    ensures forall a, b :: 0 <= a < b < |MetalGroups(s, parse)| ==>
              RowKey(MetalGroups(s, parse)[a]) != RowKey(MetalGroups(s, parse)[b])
  {
    MetalGroupsKeys(s, parse);
    GroupKeysDistinct(s);
  }

  /** Rows come in order of the first occurrence of their keys. */
  lemma MetalGroupsOrder(s: seq<Record>, parse: Parser)
    ensures forall a, b :: 0 <= a < b < |MetalGroups(s, parse)| ==>
              && RowKey(MetalGroups(s, parse)[a]) in GroupKeys(s)
              && RowKey(MetalGroups(s, parse)[b]) in GroupKeys(s)
              && FirstIndex(s, RowKey(MetalGroups(s, parse)[a])) < FirstIndex(s, RowKey(MetalGroups(s, parse)[b]))
  {
    MetalGroupsKeys(s, parse);
    GroupKeysInFirstOccurrenceOrder(s);
  }

  /** No metals gives no rows, and so the "No metals recorded" placeholder. */
  lemma MetalGroupsEmpty(s: seq<Record>, parse: Parser)
    ensures MetalGroups(s, parse) == [] <==> s == []
  {
    if s != [] {
      GroupKeysComplete(s);
      assert Key(s[0]) in GroupKeys(s);
    }
  }

  // ---------------------------------------------------------------------------
  // The rows add up to all the grams

  /** The sum of the rows' totals. */
  function Total(gs: seq<MetalTotal>): JsNumber
  {
    if gs == [] then Finite(0) else Add(Total(gs[..|gs| - 1]), gs[|gs| - 1].totalGrams)
  }

  function SumOver(s: seq<Record>, ks: seq<string>, parse: Parser): JsNumber
  {
    if ks == [] then Finite(0) else Add(SumOver(s, ks[..|ks| - 1], parse), GramsFor(s, ks[|ks| - 1], parse))
  }

  /** Rows whose grams are those of the keys, in the same order, total the
      sum over the keys. */
  lemma {:induction false} TotalOfRows(gs: seq<MetalTotal>, s: seq<Record>, ks: seq<string>, parse: Parser)
    requires |gs| == |ks|
    requires forall j :: 0 <= j < |gs| ==> gs[j].totalGrams == GramsFor(s, ks[j], parse)
    ensures Total(gs) == SumOver(s, ks, parse)
  {
    if gs != [] {
      var n := |gs| - 1;
      TotalOfRows(gs[..n], s, ks[..n], parse);
    }
  }

  lemma GramsForStep(p: seq<Record>, e: Record, k: string, parse: Parser)
    ensures GramsFor(p + [e], k, parse) ==
            if Key(e) == k then Add(GramsFor(p, k, parse), Grams(e, parse)) else GramsFor(p, k, parse)
  {
    assert (p + [e])[..|p|] == p;
  }

  lemma {:induction false} SumOverUnrelated(p: seq<Record>, e: Record, ks: seq<string>, parse: Parser)
    requires Key(e) !in ks
    ensures SumOver(p + [e], ks, parse) == SumOver(p, ks, parse)
  {
    if ks != [] {
      var ks' := ks[..|ks| - 1];
      assert Key(e) !in ks';
      SumOverUnrelated(p, e, ks', parse);
      GramsForStep(p, e, ks[|ks| - 1], parse);
    }
  }

  lemma {:induction false} SumOverBump(p: seq<Record>, e: Record, ks: seq<string>, parse: Parser)
    requires NoDuplicates(ks) && Key(e) in ks
    ensures SumOver(p + [e], ks, parse) == Add(SumOver(p, ks, parse), Grams(e, parse))
  {
    var ks' := ks[..|ks| - 1];
    var x := ks[|ks| - 1];
    var g := Grams(e, parse);
    GramsForStep(p, e, x, parse);
    if x == Key(e) {
      assert Key(e) !in ks';
      SumOverUnrelated(p, e, ks', parse);
      AddAssociative(SumOver(p, ks', parse), GramsFor(p, x, parse), g);
    } else {
      assert Key(e) in ks';
      SumOverBump(p, e, ks', parse);
      AddAssociative(SumOver(p, ks', parse), g, GramsFor(p, x, parse));
      AddCommutative(g, GramsFor(p, x, parse));
      AddAssociative(SumOver(p, ks', parse), GramsFor(p, x, parse), g);
    }
  }

  lemma {:induction false} SumOverAllKeys(s: seq<Record>, parse: Parser)
    ensures SumOver(s, GroupKeys(s), parse) == FieldSum(s, "grams", parse)
  {
    if s != [] {
      var p := s[..|s| - 1];
      var e := s[|s| - 1];
      assert s == p + [e];
      FieldSumSnoc(p, e, "grams", parse);
      SumOverAllKeys(p, parse);
      var kp := GroupKeys(p);
      if Key(e) in kp {
        GroupKeysDistinct(p);
        SumOverBump(p, e, kp, parse);
      } else {
        var ks := kp + [Key(e)];
        assert ks[..|ks| - 1] == kp;
        SumOverUnrelated(p, e, kp, parse);
        GramsForStep(p, e, Key(e), parse);
        GroupKeysComplete(p);
        GramsForAbsent(p, Key(e), parse);
      }
    }
  }

  /** The rows' totals add up to the grams of all entries. */
  lemma MetalGroupsTotal(s: seq<Record>, parse: Parser)
    ensures Total(MetalGroups(s, parse)) == FieldSum(s, "grams", parse)
  {
    TotalOfRows(MetalGroups(s, parse), s, GroupKeys(s), parse);
    SumOverAllKeys(s, parse);
  }

  // ---------------------------------------------------------------------------
  // The group key

  /** The position of the first '-' in a string (its length when there is none). */
  function DashIndex(s: string): nat
  {
    if s == [] || s[0] == '-' then 0 else 1 + DashIndex(s[1..])
  }

  lemma {:induction false} DashIndexAfter(a: string, b: string)
    requires '-' !in a
    ensures DashIndex(a + "-" + b) == |a|
  {
    if a != [] {
      assert (a + "-" + b)[1..] == a[1..] + "-" + b;
      DashIndexAfter(a[1..], b);
    }
  }

  lemma SplitAtDash(a: string, b: string, c: string, d: string)
    requires '-' !in a && '-' !in c
    requires a + "-" + b == c + "-" + d
    ensures a == c && b == d
  {
    var x := a + "-" + b;
    DashIndexAfter(a, b);
    DashIndexAfter(c, d);
    assert a == x[..|a|] == c;
    assert b == x[|a| + 1..] == d;
  }

  /** When no metal type contains '-', two entries share a key exactly when
      their metal types and their purities print the same. */
  lemma KeyInjective(e1: Record, e2: Record)
    requires '-' !in ToJsString(Get(e1, "metalType")) && '-' !in ToJsString(Get(e2, "metalType"))
    ensures Key(e1) == Key(e2) <==>
            ToJsString(Get(e1, "metalType")) == ToJsString(Get(e2, "metalType")) &&
            ToJsString(Get(e1, "purity")) == ToJsString(Get(e2, "purity"))
  {
    if Key(e1) == Key(e2) {
      SplitAtDash(ToJsString(Get(e1, "metalType")), ToJsString(Get(e1, "purity")),
                  ToJsString(Get(e2, "metalType")), ToJsString(Get(e2, "purity")));
    }
  }

  /** The key is a string, not a pair: "a-b" with purity "c" and "a" with
      purity "b-c" land in one row. */
  lemma KeyCollision()
    ensures var e1: Record := map["metalType" := Str("a-b"), "purity" := Str("c")];
            var e2: Record := map["metalType" := Str("a"), "purity" := Str("b-c")];
            Key(e1) == Key(e2) && |GroupKeys([e1, e2])| == 1
  {
    var e1: Record := map["metalType" := Str("a-b"), "purity" := Str("c")];
    var e2: Record := map["metalType" := Str("a"), "purity" := Str("b-c")];
    assert Get(e1, "metalType") == Some(Str("a-b")) && Get(e1, "purity") == Some(Str("c"));
    assert Get(e2, "metalType") == Some(Str("a")) && Get(e2, "purity") == Some(Str("b-c"));
    assert Key(e1) == "a-b-c" == Key(e2);
    assert [e1][..0] == [];
    assert GroupKeys([e1]) == [Key(e1)];
    assert [e1, e2][..1] == [e1];
  }

  // ---------------------------------------------------------------------------
  // The roll-up as the component computes it

  /** The state of the reduce after the entries `p`: `order` lists the keys of
      `acc` in insertion order and each key holds its row. */
  ghost predicate Accumulated(p: seq<Record>, acc: map<string, MetalTotal>, order: seq<string>, parse: Parser)
  {
    && order == GroupKeys(p)
    && (forall k :: k in acc <==> k in order)
    && (forall k :: k in acc ==> k in GroupKeys(p) && acc[k] == Group(p, k, parse))
  }

  /** The reduce into the object `acc`, which gains a key the first time an entry
      carries it and adds each entry's grams to the row of its key; then
      `Object.values`, which gives the rows in insertion order (every key
      contains '-' and so is not an array index, which would be listed first). */
  method GroupMetals(entries: seq<Record>, parse: Parser) returns (groups: seq<MetalTotal>)
    ensures groups == MetalGroups(entries, parse)
  {
    var acc: map<string, MetalTotal> := map[];
    var order: seq<string> := [];
    for i := 0 to |entries|
      invariant Accumulated(entries[..i], acc, order, parse)
    {
      var entry := entries[i];
      var key := Key(entry);
      ghost var acc0, order0 := acc, order;
      if key !in acc {
        acc := acc[key := MetalTotal(Get(entry, "metalType"), Get(entry, "purity"), Finite(0))];
        order := order + [key];
      }
      ghost var acc1 := acc;
      acc := acc[key := acc[key].(totalGrams := Add(acc[key].totalGrams, Grams(entry, parse)))];
      assert entries[..i + 1] == entries[..i] + [entry];
      AccumulateStep(entries[..i], entry, acc0, order0, acc1, acc, order, parse);
    }
    assert entries[..|entries|] == entries;
    groups := seq(|order|, j requires 0 <= j < |order| => acc[order[j]]);
    AccumulatedValues(entries, acc, order, parse);
  }

  /** One step of the reduce keeps `Accumulated`. */
  lemma AccumulateStep(p: seq<Record>, e: Record,
                       acc: map<string, MetalTotal>, order: seq<string>, acc1: map<string, MetalTotal>,
                       acc': map<string, MetalTotal>, order': seq<string>, parse: Parser)
    requires Accumulated(p, acc, order, parse)
    requires order' == if Key(e) in acc then order else order + [Key(e)]
    requires acc1 == if Key(e) in acc then acc
                     else acc[Key(e) := MetalTotal(Get(e, "metalType"), Get(e, "purity"), Finite(0))]
    requires acc' == acc1[Key(e) := acc1[Key(e)].(totalGrams := Add(acc1[Key(e)].totalGrams, Grams(e, parse)))]
    ensures Accumulated(p + [e], acc', order', parse)
  {
    var s := p + [e];
    GroupKeysStep(p, e);
    assert order' == GroupKeys(s);
    forall k | k in acc'
      ensures k in GroupKeys(s) && acc'[k] == Group(s, k, parse)
    {
      GroupStep(p, e, k, parse);
    }
  }

  /** At the end, the values of `acc` in insertion order are the roll-up. */
  lemma AccumulatedValues(s: seq<Record>, acc: map<string, MetalTotal>, order: seq<string>, parse: Parser)
    requires Accumulated(s, acc, order, parse)
    ensures seq(|order|, j requires 0 <= j < |order| => acc[order[j]]) == MetalGroups(s, parse)
  {
  }

  /** How one more entry changes the keys. */
  lemma GroupKeysStep(p: seq<Record>, e: Record)
    ensures GroupKeys(p + [e]) == if Key(e) in GroupKeys(p) then GroupKeys(p) else GroupKeys(p) + [Key(e)]
  {
    assert (p + [e])[..|p|] == p;
  }

  /** How one more entry changes the row of key `k`. */
  lemma GroupStep(p: seq<Record>, e: Record, k: string, parse: Parser)
    requires k in GroupKeys(p + [e])
    ensures k != Key(e) ==> k in GroupKeys(p) && Group(p + [e], k, parse) == Group(p, k, parse)
    ensures k == Key(e) && k in GroupKeys(p) ==>
              Group(p + [e], k, parse) == Group(p, k, parse).(totalGrams := Add(Group(p, k, parse).totalGrams, Grams(e, parse)))
    ensures k == Key(e) && k !in GroupKeys(p) ==>
              Group(p + [e], k, parse) == MetalTotal(Get(e, "metalType"), Get(e, "purity"), Add(Finite(0), Grams(e, parse)))
  {
    var s := p + [e];
    assert s[..|s| - 1] == p;
    GramsForStep(p, e, k, parse);
    if k in GroupKeys(p) {
      assert s[FirstIndex(p, k)] == p[FirstIndex(p, k)];
    } else {
      GroupKeysComplete(p);
      GramsForAbsent(p, k, parse);
    }
  }

  // ---------------------------------------------------------------------------
  // The counts under the cards

  /** `{n} transaction{n !== 1 ? 's' : ''}`. */
  function CashCountLabel(count: nat): (text: string)
    ensures count == 1 ==> text == "1 transaction"
    ensures count != 1 ==> text == NatToString(count) + " transactions"
  {
    NatToString(count) + " transaction" + (if count != 1 then "s" else "")
  }

  /** `{n} entr{n !== 1 ? 'ies' : 'y'}`. */
  function MetalsCountLabel(count: nat): (text: string)
    ensures count == 1 ==> text == "1 entry"
    ensures count != 1 ==> text == NatToString(count) + " entries"
  {
    NatToString(count) + " entr" + (if count != 1 then "ies" else "y")
  }

  // ---------------------------------------------------------------------------
  // The summary view's figures

  /** The metals card: the placeholder or the rows. */
  datatype MetalsPanel = NoMetalsRecorded | MetalRows(rows: seq<MetalTotal>)

  datatype Summary = Summary(cashTotal: JsNumber, cashCount: string, metals: MetalsPanel, metalsCount: string)

  /** Reads both partitions and computes what the summary shows. */
  method Summarize(cashStorage: StorageService, metalsStorage: StorageService, parse: Parser)
    returns (summary: Summary)
    ensures summary.cashTotal == CashTotal(cashStorage.Items(), parse)
    ensures summary.cashCount == CashCountLabel(|cashStorage.Items()|)
    ensures metalsStorage.Items() == [] ==> summary.metals == NoMetalsRecorded
    ensures metalsStorage.Items() != [] ==> summary.metals == MetalRows(MetalGroups(metalsStorage.Items(), parse))
    ensures summary.metalsCount == MetalsCountLabel(|metalsStorage.Items()|)
  {
    var cashEntries := cashStorage.GetAll();
    var cashTotal := CashTotal(cashEntries, parse);
    var metalsEntries := metalsStorage.GetAll();
    var metalsTotals := GroupMetals(metalsEntries, parse);
    var panel := if |metalsTotals| > 0 then MetalRows(metalsTotals) else NoMetalsRecorded;
    MetalGroupsEmpty(metalsEntries, parse);
    summary := Summary(cashTotal, CashCountLabel(|cashEntries|), panel, MetalsCountLabel(|metalsEntries|));
  }
}
