/**
 * The example model pipeline shipped with the CLI's tests
 * (tests/assets/pipeline.py): the request validator, the feature layout
 * handed to the model, and the pairing of request ids with predictions.
 */
module Pipeline {
  import opened Wrappers
  import opened PyDict

  /** A parsed JSON value; numbers keep Python's distinction between `bool`, `int` and `float`. */
  datatype Json =
    | JNull
    | JBool(b: bool)
    | JInt(i: int)
    | JFloat(f: real)
    | JStr(s: string)
    | JList(items: seq<Json>)
    | JObject(fields: Dict<string, Json>)

  /** The features every example carries, in the order the model expects them. */
  const FEATURES: seq<string> := ["sepal-length", "sepal-width", "petal-length", "petal-width"]

  /** The `ValueError`s `verify_input` raises, and the `AttributeError` of an example that is not a mapping. */
  datatype InputError =
    | NoCallbackUri
    | NoData
    | DataNotMapping
    | ExampleNotMapping
    | MissingFeature
    | FeatureNotFloat

  /** An example the model can take: a mapping holding every feature, all of whose values are floats. */
  predicate ValidExample(e: Json) {
    && e.JObject?
    && (forall f :: f in FEATURES ==> f in e.fields.vals)
    && (forall k :: k in e.fields.vals ==> e.fields.vals[k].JFloat?)
  }

  /** The check of one example: `.keys()` of a non-mapping raises first, then the feature test, then the float test. */
  function ExampleError(e: Json): (r: Option<InputError>)
    ensures r.None? <==> ValidExample(e)
  {
    if !e.JObject? then Some(ExampleNotMapping)
    else if exists f :: f in FEATURES && f !in e.fields.vals then Some(MissingFeature)
    else if exists k :: k in e.fields.vals && !e.fields.vals[k].JFloat? then Some(FeatureNotFloat)
    else None
  }

  /** The examples of `data` checked in key order: the first one that fails decides the error. */
  function ExamplesError(keys: seq<string>, vals: map<string, Json>): (r: Option<InputError>)
    requires forall i :: 0 <= i < |keys| ==> keys[i] in vals
    ensures r.None? <==> forall i :: 0 <= i < |keys| ==> ValidExample(vals[keys[i]])
    ensures r.Some? ==>
      exists i :: (0 <= i < |keys| && r == ExampleError(vals[keys[i]]) && forall j :: 0 <= j < i ==> ValidExample(vals[keys[j]]))
    decreases |keys|
  {
    if keys == [] then None
    else
      match ExampleError(vals[keys[0]])
      case Some(e) => Some(e)
      case None =>
        var r := ExamplesError(keys[1..], vals);
        assert forall i :: 0 <= i < |keys[1..]| ==> keys[1..][i] == keys[i + 1];
        if r.Some? then
          var i :| (0 <= i < |keys[1..]| && r == ExampleError(vals[keys[1..][i]])
            && forall j :: 0 <= j < i ==> ValidExample(vals[keys[1..][j]]));
          assert r == ExampleError(vals[keys[i + 1]]);
          assert forall j :: 0 <= j < i + 1 ==> ValidExample(vals[keys[j]]) by {
            forall j | 0 <= j < i + 1 ensures ValidExample(vals[keys[j]]) {
              if j > 0 {
                assert keys[j] == keys[1..][j - 1];
              }
            }
          }
          r
        else
          assert forall i :: 1 <= i < |keys| ==> ValidExample(vals[keys[i]]) by {
            forall i | 1 <= i < |keys| ensures ValidExample(vals[keys[i]]) {
              assert keys[i] == keys[1..][i - 1];
            }
          }
          r
  }

  /** A well-formed request body: a dict whose `data` mapping, if any, is a well-formed dict too. */
  ghost predicate WellFormed(request: Dict<string, Json>) {
    request.Valid() && ("data" in request.vals && request.vals["data"].JObject? ==> request.vals["data"].fields.Valid())
  }

  /**
   * `verify_input`: `callback_uri` missing, then `data` missing, then `data`
   * not a mapping, then the first bad example; on success the request
   * itself.
   */
  function VerifyInput(request: Dict<string, Json>): (r: Result<Dict<string, Json>, InputError>)
    requires WellFormed(request)
    ensures r == Err(NoCallbackUri) <==> "callback_uri" !in request.vals
    ensures r == Err(NoData) <==> "callback_uri" in request.vals && "data" !in request.vals
    ensures r == Err(DataNotMapping) <==>
      "callback_uri" in request.vals && "data" in request.vals && !request.vals["data"].JObject?
    ensures r.Ok? <==> && "callback_uri" in request.vals && "data" in request.vals && request.vals["data"].JObject?
                       && forall k :: k in request.vals["data"].fields.vals ==> ValidExample(request.vals["data"].fields.vals[k])
    ensures r.Ok? ==> r.value == request
  {
    if "callback_uri" !in request.vals then Err(NoCallbackUri)
    else if "data" !in request.vals then Err(NoData)
    else if !request.vals["data"].JObject? then Err(DataNotMapping)
    else
      match DataError(request.vals["data"].fields)
      case Some(e) => Err(e)
      case None => Ok(request)
  }

  /** The loop over `data`'s items: an error exactly when some example is not valid. */
  function DataError(data: Dict<string, Json>): (r: Option<InputError>)
    requires data.Valid()
    ensures r.None? <==> forall k :: k in data.vals ==> ValidExample(data.vals[k])
  {
    assert forall i :: 0 <= i < |data.keys| ==> data.keys[i] in data.vals;
    var r := ExamplesError(data.keys, data.vals);
    assert r.None? ==> forall k :: k in data.vals ==> ValidExample(data.vals[k]) by {
      if r.None? {
        forall k | k in data.vals ensures ValidExample(data.vals[k]) {
          assert k in data.keys;
          var i :| 0 <= i < |data.keys| && data.keys[i] == k;
        }
      }
    }
    r
  }

  /** The examples the request body holds, once it passed `verify_input`. */
  function Examples(request: Dict<string, Json>): Dict<string, Json>
    requires WellFormed(request) && VerifyInput(request).Ok?
  {
    request.vals["data"].fields
  }

  /** One example's row: its feature values in FEATURES order. */
  function Row(e: Json): (r: seq<real>)
    requires ValidExample(e)
    ensures |r| == |FEATURES|
    ensures forall j :: 0 <= j < |FEATURES| ==> e.fields.vals[FEATURES[j]] == JFloat(r[j])
  {
    [e.fields.vals[FEATURES[0]].f, e.fields.vals[FEATURES[1]].f,
     e.fields.vals[FEATURES[2]].f, e.fields.vals[FEATURES[3]].f]
  }

  /**
   * `process`: the request ids in order, and for each example, in the same
   * order, its four feature values laid out in FEATURES order.
   */
  method Process(request: Dict<string, Json>) returns (ids: seq<string>, rows: seq<seq<real>>)
    requires WellFormed(request) && VerifyInput(request).Ok?
    ensures ids == Examples(request).keys
    ensures |rows| == |ids|
    ensures forall i :: 0 <= i < |ids| ==> ids[i] in Examples(request).vals && rows[i] == Row(Examples(request).vals[ids[i]])
  {
    var data := request.vals["data"].fields;
    ids := data.keys;
    rows := [];
    var i := 0;
    while i < |ids|
      invariant 0 <= i <= |ids|
      invariant |rows| == i
      invariant forall j :: 0 <= j < i ==> ids[j] in data.vals && rows[j] == Row(data.vals[ids[j]])
    {
      assert ids[i] in data.vals;
      var features := data.vals[ids[i]];
      rows := rows + [[features.fields.vals[FEATURES[0]].f, features.fields.vals[FEATURES[1]].f,
                       features.fields.vals[FEATURES[2]].f, features.fields.vals[FEATURES[3]].f]];
      i := i + 1;
    }
  }

  /** `zip(ids, predictions)`: pairs by position, as many as the shorter of the two. */
  function Zip<P>(ids: seq<string>, predictions: seq<P>): (r: seq<(string, P)>)
    ensures |r| == if |ids| < |predictions| then |ids| else |predictions|
    ensures forall i :: 0 <= i < |r| ==> r[i] == (ids[i], predictions[i])
  {
    var n := if |ids| < |predictions| then |ids| else |predictions|;
    seq(n, i requires 0 <= i < n => (ids[i], predictions[i]))
  }

  /** `dict(pairs)`: each pair assigned in turn, so a repeated key keeps its first place and its last value. */
  function DictOf<P>(pairs: seq<(string, P)>): (r: Dict<string, P>)
    ensures r.Valid()
    decreases |pairs|
  {
    if pairs == [] then Empty()
    else
      var n := |pairs| - 1;
      DictOf(pairs[..n]).Put(pairs[n].0, pairs[n].1)
  }

  /** `predict`, the model's outputs given: each request id paired with the prediction at its position. */
  function Predict<P>(ids: seq<string>, predictions: seq<P>): Dict<string, P> {
    DictOf(Zip(ids, predictions))
  }

  /** With distinct keys, `dict(pairs)` keeps the pairs' order and each pair's value. */
  lemma {:induction false} DictOfDistinct<P>(pairs: seq<(string, P)>)
    requires forall i, j :: 0 <= i < j < |pairs| ==> pairs[i].0 != pairs[j].0
    ensures |DictOf(pairs).keys| == |pairs|
    ensures forall i :: 0 <= i < |pairs| ==> DictOf(pairs).keys[i] == pairs[i].0 && DictOf(pairs).vals[pairs[i].0] == pairs[i].1
    decreases |pairs|
  {
    if pairs != [] {
      var n := |pairs| - 1;
      var init := pairs[..n];
      DictOfDistinct(init);
      var d := DictOf(init);
      forall i | 0 <= i < n
        ensures d.keys[i] == pairs[i].0 && d.vals[pairs[i].0] == pairs[i].1 && pairs[i].0 != pairs[n].0
      {
        assert init[i] == pairs[i];
      }
      PutPair(d, pairs);
    }
  }

  /** The step of `DictOfDistinct`: assigning the last pair's fresh key appends it. */
  lemma PutPair<P>(d: Dict<string, P>, pairs: seq<(string, P)>)
    requires pairs != [] && d.Valid() && |d.keys| == |pairs| - 1
    requires forall i :: 0 <= i < |pairs| - 1 ==>
      d.keys[i] == pairs[i].0 && d.vals[pairs[i].0] == pairs[i].1 && pairs[i].0 != pairs[|pairs| - 1].0
    ensures var d' := d.Put(pairs[|pairs| - 1].0, pairs[|pairs| - 1].1);
      && |d'.keys| == |pairs|
      && forall i :: 0 <= i < |pairs| ==> d'.keys[i] == pairs[i].0 && d'.vals[pairs[i].0] == pairs[i].1
  {
    var n := |pairs| - 1;
    var k := pairs[n].0;
    forall key | key in d.vals ensures key != k {
      assert key in d.keys;
      var i :| 0 <= i < |d.keys| && d.keys[i] == key;
    }
  }

  /** Every key of `dict(pairs)` is the key of some pair, and every pair's key is a key. */
  lemma {:induction false} DictOfKeys<P>(pairs: seq<(string, P)>)
    ensures forall k :: k in DictOf(pairs).vals <==> HasPairKey(pairs, k)
    decreases |pairs|
  {
    if pairs != [] {
      var n := |pairs| - 1;
      var init := pairs[..n];
      DictOfKeys(init);
      var m := DictOf(init).vals[pairs[n].0 := pairs[n].1];
      assert DictOf(pairs).vals == m;
      forall k ensures k in m <==> HasPairKey(pairs, k) {
        PairKeySnoc(pairs, k);
      }
    }
  }

  /** Some pair of `pairs` has key `k`. */
  predicate HasPairKey<P>(pairs: seq<(string, P)>, k: string) {
    exists i :: 0 <= i < |pairs| && pairs[i].0 == k
  }

  lemma PairKeySnoc<P>(pairs: seq<(string, P)>, k: string)
    requires pairs != []
    ensures HasPairKey(pairs, k) <==> HasPairKey(pairs[..|pairs| - 1], k) || k == pairs[|pairs| - 1].0
  {
    var n := |pairs| - 1;
    if HasPairKey(pairs, k) {
      var i :| 0 <= i < |pairs| && pairs[i].0 == k;
      if i < n {
        assert pairs[..n][i].0 == k;
      }
    }
    if HasPairKey(pairs[..n], k) {
      var i :| 0 <= i < n && pairs[..n][i].0 == k;
      assert pairs[i].0 == k;
    }
  }

  /**
   * A request that passed `verify_input`, given one prediction per example,
   * is answered with every request id, in order, mapped to its own
   * example's prediction.
   */
  lemma PredictionsKeyedByIds<P>(request: Dict<string, Json>, predictions: seq<P>)
    requires WellFormed(request) && VerifyInput(request).Ok?
    requires |predictions| == |Examples(request).keys|
    ensures Predict(Examples(request).keys, predictions).keys == Examples(request).keys
    ensures forall i :: 0 <= i < |predictions| ==> Predict(Examples(request).keys, predictions).vals[Examples(request).keys[i]] == predictions[i]
  {
    var ids := Examples(request).keys;
    var pairs := Zip(ids, predictions);
    DictOfDistinct(pairs);
  }

  /** More ids than predictions (or the reverse): the answer covers only the paired prefix of the ids. */
  lemma PredictTruncates<P>(ids: seq<string>, predictions: seq<P>)
    ensures forall k :: k in Predict(ids, predictions).vals <==>
      exists i :: 0 <= i < |ids| && i < |predictions| && ids[i] == k
  {
    var pairs := Zip(ids, predictions);
    DictOfKeys(pairs);
    forall k | exists i :: 0 <= i < |ids| && i < |predictions| && ids[i] == k
      ensures k in Predict(ids, predictions).vals
    {
      var i :| 0 <= i < |ids| && i < |predictions| && ids[i] == k;
      assert pairs[i].0 == k;
    }
    forall k | k in Predict(ids, predictions).vals
      ensures exists i :: 0 <= i < |ids| && i < |predictions| && ids[i] == k
    {
      var i :| 0 <= i < |pairs| && pairs[i].0 == k;
      assert ids[i] == k;
    }
  }
}
