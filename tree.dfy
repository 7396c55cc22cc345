/** The deserialised accessibility snapshot that all three converters read:
    JSON objects carrying a `role`, an optional `value` and an ordered
    `children` list, plus JSON arrays and scalars. */
module Tree {

  datatype Option<T> = None | Some(value: T)

  datatype Result<T, E> = Ok(value: T) | Err(error: E)

  /** A JSON value as the converters see it. `children` stands for the
      `children` key with `[]` when the key is absent, which is how every
      converter reads it. `role` and `value` are `None` when the key is absent. */
  datatype Json =
    | Obj(role: Option<string>, value: Option<string>, children: seq<Json>)
    | Arr(items: seq<Json>)
    | Atom

  predicate HasRole(n: Json, r: string) {
    n.Obj? && n.role == Some(r)
  }

  /** `node.get("value", "")` on an object. */
  function ValueOr(n: Json): string
    requires n.Obj?
  {
    match n.value
    case Some(v) => v
    case None => ""
  }

  /** The objects of a tree in pre-order: an object before its children,
      children and array items left to right. */
  ghost function PreOrder(n: Json): seq<Json>
    decreases n, 1
  {
    match n
    case Obj(_, _, cs) => [n] + PreOrderAll(cs)
    case Arr(items) => PreOrderAll(items)
    case Atom => []
  }

  ghost function PreOrderAll(ns: seq<Json>): seq<Json>
    decreases ns, 0
  {
    if ns == [] then [] else PreOrder(ns[0]) + PreOrderAll(ns[1..])
  }

  lemma {:induction false} PreOrderAllAppend(xs: seq<Json>, ys: seq<Json>)
    ensures PreOrderAll(xs + ys) == PreOrderAll(xs) + PreOrderAll(ys)
    decreases xs
  {
    if xs == [] {
      assert xs + ys == ys;
    } else {
      assert (xs + ys)[0] == xs[0];
      assert (xs + ys)[1..] == xs[1..] + ys;
      PreOrderAllAppend(xs[1..], ys);
    }
  }
}
