/**
 * The JavaScript values the repository builds and passes on, and the three
 * language operations it applies to them: a property read through optional
 * chaining, nullish coalescing and object spread.
 */
module JsValues {

  /** A JavaScript value; numbers are modelled as integers. */
  datatype Value =
    | Undefined
    | Null
    | Bool(b: bool)
    | Num(n: int)
    | Str(s: string)
    | Arr(items: seq<Value>)
    | Obj(fields: map<string, Value>)

  /**
   * `v?.key` for a key that is neither an array index nor a property that every
   * string or array inherits (such as `length`): only an object's own entry is
   * found, every other value yields `undefined`.
   */
  function Get(v: Value, key: string): (r: Value)
    ensures v.Obj? && key in v.fields ==> r == v.fields[key]
    ensures !(v.Obj? && key in v.fields) ==> r == Undefined
  {
    if v.Obj? && key in v.fields then v.fields[key] else Undefined
  }

  /** `v ?? fallback` */
  function Coalesce(v: Value, fallback: Value): (r: Value)
    ensures v.Undefined? || v.Null? ==> r == fallback
    ensures !(v.Undefined? || v.Null?) ==> r == v
  {
    if v.Undefined? || v.Null? then fallback else v
  }

  function Digit(d: nat): (c: char)
    requires d < 10
  {
    (48 + d) as char
  }

  /** The canonical decimal spelling of an array index: the property key of element `n`. */
  function IndexKey(n: nat): (r: string)
    ensures 1 <= |r|
    ensures n >= 10 ==> 2 <= |r|
  {
    if n < 10 then [Digit(n)] else IndexKey(n / 10) + [Digit(n % 10)]
  }

  /** Distinct indices have distinct keys. */
  lemma {:induction false} IndexKeyInjective(a: nat, b: nat)
    requires IndexKey(a) == IndexKey(b)
    ensures a == b
  {
    if a < 10 && b < 10 {
      assert IndexKey(a)[0] == Digit(a);
      assert IndexKey(b)[0] == Digit(b);
    } else if 10 <= a && 10 <= b {
      var ka, kb := IndexKey(a), IndexKey(b);
      assert ka[|ka| - 1] == Digit(a % 10);
      assert kb[|kb| - 1] == Digit(b % 10);
      assert ka[..|ka| - 1] == IndexKey(a / 10);
      assert kb[..|kb| - 1] == IndexKey(b / 10);
      IndexKeyInjective(a / 10, b / 10);
    }
  }

  /** The entries `{...xs}` copies out of an array: element i under key IndexKey(i), in index order. */
  function IndexedEntries(xs: seq<Value>): map<string, Value>
    decreases |xs|
  {
    if xs == [] then map[]
    else IndexedEntries(xs[..|xs| - 1])[IndexKey(|xs| - 1) := xs[|xs| - 1]]
  }

  /**
   * Spreading an array yields exactly one entry per element: the keys are the
   * element indices, and each key holds its own element.
   */
  lemma {:induction false} IndexedEntriesLookup(xs: seq<Value>, i: nat)
    requires i < |xs|
    ensures IndexKey(i) in IndexedEntries(xs)
    ensures IndexedEntries(xs)[IndexKey(i)] == xs[i]
    decreases |xs|
  {
    var last := |xs| - 1;
    if i < last {
      IndexedEntriesLookup(xs[..last], i);
      if IndexKey(i) == IndexKey(last) {
        IndexKeyInjective(i, last);
      }
    }
  }

  lemma {:induction false} IndexedEntriesKeys(xs: seq<Value>)
    ensures IndexedEntries(xs).Keys == set i | 0 <= i < |xs| :: IndexKey(i)
    decreases |xs|
  {
    if xs != [] {
      var last := |xs| - 1;
      IndexedEntriesKeys(xs[..last]);
      var prefix := xs[..last];
      assert (set i | 0 <= i < |xs| :: IndexKey(i))
          == (set i | 0 <= i < |prefix| :: IndexKey(i)) + {IndexKey(last)};
    }
  }

  /** The characters of a string as one-character strings, as spreading a string sees them. */
  function Chars(s: string): (r: seq<Value>)
    ensures |r| == |s|
    ensures forall i :: 0 <= i < |s| ==> r[i] == Str([s[i]])
  {
    seq(|s|, i requires 0 <= i < |s| => Str([s[i]]))
  }

  /**
   * The own enumerable entries `{...v}` copies: an object's entries, an array's
   * or a string's elements under their index keys, nothing for any other value.
   */
  function Spread(v: Value): (m: map<string, Value>)
    ensures v.Obj? ==> m == v.fields
    ensures v.Arr? ==> m.Keys == set i | 0 <= i < |v.items| :: IndexKey(i)
    ensures v.Str? ==> m.Keys == set i | 0 <= i < |v.s| :: IndexKey(i)
    ensures !(v.Obj? || v.Arr? || v.Str?) ==> m == map[]
  {
    match v
    case Obj(fields) => fields
    case Arr(items) =>
      IndexedEntriesKeys(items);
      IndexedEntries(items)
    case Str(s) =>
      IndexedEntriesKeys(Chars(s));
      IndexedEntries(Chars(s))
    case _ => map[]
  }
}
