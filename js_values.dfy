/** JavaScript values as the core sees them: a header or environment variable
    is either `undefined` or a string, and JavaScript decides "is it set?" by
    truthiness, so the empty string counts as unset. */
module JsValues {

  datatype Option<+T> = None | Some(value: T)

  /** `!!v` for a value that is `undefined` or a string. */
  predicate Truthy(v: Option<string>) {
    v.Some? && v.value != ""
  }

  /** `xs.filter(Boolean)`: keeps the truthy entries, in order. */
  function FilterTruthy(xs: seq<Option<string>>): (r: seq<string>)
    ensures |r| <= |xs|
    ensures forall x :: x in r <==> Some(x) in xs && x != ""
  {
    if xs == [] then []
    else
      var rest := FilterTruthy(xs[1..]);
      assert forall x :: Some(x) in xs <==> Some(x) == xs[0] || Some(x) in xs[1..];
      if Truthy(xs[0]) then [xs[0].value] + rest else rest
  }

  /** `FilterTruthy` keeps every truthy entry and only those, in order:
      it distributes over concatenation. */
  lemma {:induction false} FilterTruthyAppend(xs: seq<Option<string>>, ys: seq<Option<string>>)
    ensures FilterTruthy(xs + ys) == FilterTruthy(xs) + FilterTruthy(ys)
  {
    if xs == [] {
      assert xs + ys == ys;
    } else {
      assert (xs + ys)[1..] == xs[1..] + ys;
      FilterTruthyAppend(xs[1..], ys);
    }
  }
}
