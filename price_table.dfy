/** `FoodView.generateFoodPriceDict`:
    `Dictionary(uniqueKeysWithValues: zip(foods, prices))`. */
module PriceTable {
  import opened Wrappers

  /** No name occurs twice. */
  predicate Distinct(s: seq<string>)
  {
    forall i, j :: 0 <= i < j < |s| ==> s[i] != s[j]
  }

  function Min(a: nat, b: nat): nat
  {
    if a < b then a else b
  }

  /** What `ZipDict` promises: a dictionary exactly when the keys that are
      paired are distinct, holding each paired key with its value. */
  ghost predicate ZipsTo(keys: seq<string>, values: seq<string>, r: Option<map<string, string>>)
  {
    var n := Min(|keys|, |values|);
    && (r.Some? <==> Distinct(keys[..n]))
    && (r.Some? ==> r.value.Keys == set i | 0 <= i < n :: keys[i])
    && (r.Some? ==> forall i :: 0 <= i < n ==> r.value[keys[i]] == values[i])
  }

  /** Pairs `keys[i]` with `values[i]` for the common length of the two
      sequences, as `zip` does. A repeated key is a runtime trap in the
      source; here it is `None`. */
  function ZipDict(keys: seq<string>, values: seq<string>): (r: Option<map<string, string>>)
    ensures r.Some? <==> Distinct(keys[..Min(|keys|, |values|)])
    ensures r.Some? ==> r.value.Keys == set i | 0 <= i < Min(|keys|, |values|) :: keys[i]
    ensures r.Some? ==> forall i :: 0 <= i < Min(|keys|, |values|) ==> r.value[keys[i]] == values[i]
    decreases |keys|
  {
    if |keys| == 0 || |values| == 0 then Some(map[])
    else
      var rest := ZipDict(keys[1..], values[1..]);
      var r := if rest.None? || keys[0] in rest.value then None else Some(rest.value[keys[0] := values[0]]);
      ZipStep(keys, values, rest, r);
      r
  }

  /** Adding the first pair in front of a zipped tail. */
  lemma ZipStep(keys: seq<string>, values: seq<string>, rest: Option<map<string, string>>, r: Option<map<string, string>>)
    requires |keys| > 0 && |values| > 0
    requires ZipsTo(keys[1..], values[1..], rest)
    requires r == if rest.None? || keys[0] in rest.value then None else Some(rest.value[keys[0] := values[0]])
    ensures ZipsTo(keys, values, r)
  {
  }

  /** Two rows with the same food name trap: the screen starts with one
      blank row, so adding a second and leaving both blank is enough. */
  lemma BlankRowsTrap()
    ensures ZipDict(["", ""], ["", ""]) == None
  {
  }
}
