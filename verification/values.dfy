/** JavaScript values as the client passes them around: optional results,
    and the loosely typed colour / face arguments whose truthiness decides
    what the grid does with them. */
module Values {

  /** The conventional Some/None datatype, standing in for `null` results. */
  datatype Option<+T> = None | Some(value: T)

  /** A colour or face argument as it reaches the grid: `undefined`, `null`
      or a number (colours are 24-bit integers, faces the codes 1..6). */
  datatype JsVal = Undefined | Null | Num(n: int)

  /** JavaScript truthiness: `undefined`, `null` and `0` are falsy. */
  predicate Truthy(v: JsVal)
  {
    v.Num? && v.n != 0
  }

  /** Loose equality with null (`v == null`): true of `undefined` and `null` only. */
  predicate Nullish(v: JsVal)
  {
    v.Undefined? || v.Null?
  }

  /** Every truthy value is non-nullish, and the only non-nullish falsy value is 0. */
  lemma TruthyNotNullish(v: JsVal)
    ensures Truthy(v) ==> !Nullish(v)
    ensures !Nullish(v) && !Truthy(v) <==> v == Num(0)
  {
  }
}
