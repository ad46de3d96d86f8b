/**
 * The dynamically typed values a record holds once parsed: Python `int`,
 * `float` (modelled as exact reals), `str` and `None`, and the rules the
 * classifier leans on when it indexes a list with one of them.
 */
module Values {
  import opened Wrappers

  datatype Val = VInt(i: int) | VReal(r: real) | VStr(s: string) | VNone

  /** A record: one Python list of mixed values. */
  type Row = seq<Val>

  /** Values Python adds, divides and orders as numbers. */
  predicate IsNumeric(v: Val) {
    v.VInt? || v.VReal?
  }

  function Num(v: Val): real
    requires IsNumeric(v)
  {
    if v.VInt? then v.i as real else v.r
  }

  /** The slot Python's `xs[i]` reads for a list of length `len`: a negative
      index counts from the end; anything else out of range raises
      `IndexError`, modelled as `None`. */
  function ListIndex(len: nat, i: int): (k: Option<nat>)
    ensures k.Some? <==> -(len as int) <= i < len
    ensures k.Some? ==> k.value < len && (k.value == i || k.value == i + len)
  {
    if 0 <= i < len then Some(i)
    else if -(len as int) <= i < 0 then Some(i + len)
    else None
  }

  /** On the range Python accepts, its wrap-around agrees with Euclidean
      remainder. */
  lemma ListIndexIsRemainder(len: nat, i: int)
    requires -(len as int) <= i < len
    ensures ListIndex(len, i) == Some(i % len)
  {
  }
}
