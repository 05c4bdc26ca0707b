/**
 The two kinds of value the bot's handlers juggle that need care in a model:
 a field that may be `undefined`, and a JavaScript number that may be NaN.
 */
module Values {

  /** A field that is either present or `undefined`. */
  datatype Option<+T> = None | Some(value: T)

  /** A JavaScript number, idealised: an exact real, or NaN. Rounding of
      doubles and the infinities do not arise in the model. */
  datatype Number = Num(v: real) | NaN

  /** `a + b`; NaN is absorbing. */
  function Add(a: Number, b: Number): (r: Number)
    ensures r.NaN? <==> a.NaN? || b.NaN?
  {
    if a.Num? && b.Num? then Num(a.v + b.v) else NaN
  }

  /** `ms / 1000`: a count of milliseconds as seconds. */
  function ToSeconds(ms: Number): (r: Number)
    ensures r.NaN? <==> ms.NaN?
  {
    match ms
    case Num(x) => Num(x / 1000.0)
    case NaN => NaN
  }

  /** Converting to seconds distributes over a sum, NaN included. */
  lemma ToSecondsAdd(a: Number, b: Number)
    ensures ToSeconds(Add(a, b)) == Add(ToSeconds(a), ToSeconds(b))
  {
  }

  /** Addition associates, NaN included. */
  lemma AddAssociates(a: Number, b: Number, c: Number)
    ensures Add(Add(a, b), c) == Add(a, Add(b, c))
  {
  }

  /** Adding zero leaves a number as it was, NaN included. */
  lemma AddZero(a: Number)
    ensures Add(a, Num(0.0)) == a
  {
    if a.Num? {
      assert Add(a, Num(0.0)) == Num(a.v);
    }
  }

  /** The order in which the document store sorts numbers: NaN sits below
      every other number. `AtLeast(a, b)` holds when `a` may come before `b`
      in a descending sort. */
  predicate AtLeast(a: Number, b: Number)
  {
    b.NaN? || (a.Num? && a.v >= b.v)
  }

  /** `AtLeast` is a total preorder, so sorting by it is meaningful. */
  lemma AtLeastTotalPreorder(a: Number, b: Number, c: Number)
    ensures AtLeast(a, a)
    ensures AtLeast(a, b) || AtLeast(b, a)
    ensures AtLeast(a, b) && AtLeast(b, c) ==> AtLeast(a, c)
  {
  }
}
