/** The three request checks `post_transaction` runs before it touches the
    store, and the `TransactionType` codes they refer to (app/main.py). */
module Validation {
  import opened Wrappers

  /** The longest description the handler accepts, in code points. */
  const MaxDescriptionLength := 10

  /** The check a rejected request failed; each is reported as HTTP 422. */
  datatype Invalid = BadDescription | BadValue | BadType

  /** The `TransactionType` enumeration and its single-letter wire codes. */
  datatype TransactionType = Credit | Debit {
    function Code(): string
    {
      match this
      case Credit => "c"
      case Debit => "d"
    }
  }

  /** The enumeration member whose code is `s`, if any. */
  function ParseType(s: string): (r: Option<TransactionType>)
    ensures r.Some? ==> r.value.Code() == s
    ensures forall t: TransactionType :: t.Code() == s ==> r == Some(t)
  {
    if s == "c" then Some(Credit)
    else if s == "d" then Some(Debit)
    else None
  }

  /** Decoding a code recovers the member it was produced from. */
  lemma ParseCode(t: TransactionType)
    ensures ParseType(t.Code()) == Some(t)
  {
  }

  /** The description check: present and between 1 and 10 characters long. */
  function DescriptionAccepted(descricao: Option<string>): (ok: bool)
    ensures ok <==> descricao.Some? && 1 <= |descricao.value| <= MaxDescriptionLength
  {
    !(descricao.None? || |descricao.value| == 0 || |descricao.value| > MaxDescriptionLength)
  }

  /** Python's `int()` applied to a float: truncation toward zero. */
  function Trunc(x: real): (r: int)
    ensures 0.0 <= x ==> 0 <= r && r as real <= x < r as real + 1.0
    ensures x < 0.0 ==> r <= 0 && r as real - 1.0 < x <= r as real
  {
    if 0.0 <= x then x.Floor else -((-x).Floor)
  }

  /** A real with no fractional part. */
  predicate Whole(x: real)
  {
    x.Floor as real == x
  }

  /** `validate_value`: the truncated value, unless the input lies strictly
      above its truncation, which only a non-negative fractional input does. */
  function ValidateValue(value: real): (r: Result<int, Invalid>)
    ensures r.Err? <==> 0.0 <= value && !Whole(value)
    ensures r.Err? ==> r.error == BadValue
    ensures r.Ok? ==> r.value == Trunc(value)
    ensures Whole(value) ==> r == Ok(value.Floor)
  {
    var truncated := Trunc(value);
    if value > truncated as real then Err(BadValue) else Ok(truncated)
  }

  /** The type check: the code is one of the enumeration's codes. */
  function TypeAccepted(tipo: string): (ok: bool)
    ensures ok <==> tipo == "c" || tipo == "d"
    ensures ok <==> ParseType(tipo).Some?
  {
    tipo in ["c", "d"]
  }

  /** The boundary cases of the three checks. */
  lemma ValidationBoundaries()
    ensures !DescriptionAccepted(None)
    ensures !DescriptionAccepted(Some(""))
    ensures DescriptionAccepted(Some("a"))
    ensures DescriptionAccepted(Some("abcdefghij"))
    ensures !DescriptionAccepted(Some("abcdefghijk"))
    ensures ValidateValue(10.0) == Ok(10)
    ensures ValidateValue(10.5) == Err(BadValue)
    ensures ValidateValue(0.5) == Err(BadValue)
    ensures ValidateValue(-10.5) == Ok(-10)
    ensures ValidateValue(-3.0) == Ok(-3)
    ensures TypeAccepted("c") && TypeAccepted("d")
    ensures !TypeAccepted("x") && !TypeAccepted("") && !TypeAccepted("credit")
  {
  }
}
