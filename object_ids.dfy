/** ObjectId handling: a request carries an id as 24 hexadecimal digits, the store keeps its value. */
module ObjectIds {
  import opened Common
  import opened Strings

  const ID_DIGITS := 24

  function Pow16(n: nat): (r: nat)
    ensures r >= 1
  {
    if n == 0 then 1 else 16 * Pow16(n - 1)
  }

  predicate AllHex(s: string)
  {
    forall i :: 0 <= i < |s| ==> IsHexDigit(s[i])
  }

  /** The number written by the hexadecimal digits s, most significant first. */
  function HexValue(s: string): (v: nat)
    requires AllHex(s)
    ensures v < Pow16(|s|)
    decreases |s|
  {
    if |s| == 0 then 0
    else
      var high := HexValue(s[..|s| - 1]);
      assert 16 * high + 16 <= 16 * Pow16(|s| - 1);
      16 * high + HexDigitValue(s[|s| - 1])
  }

  /** `ObjectId.isValid(s)` together with `new ObjectId(s)`: None is an id that is refused. */
  function ParseObjectId(s: string): (r: Option<nat>)
    ensures r.Some? <==> |s| == ID_DIGITS && AllHex(s)
    ensures r.Some? ==> r.value < Pow16(ID_DIGITS)
  {
    if |s| == ID_DIGITS && AllHex(s) then Some(HexValue(s)) else None
  }

  /** The n lowest hexadecimal digits of v. */
  function ToHex(v: nat, n: nat): (s: string)
    ensures |s| == n && AllHex(s)
  {
    if n == 0 then [] else ToHex(v / 16, n - 1) + [HexDigit(v % 16)]
  }

  /** The 24-digit string an id is sent to clients as. */
  function FormatObjectId(v: nat): string
  {
    ToHex(v, ID_DIGITS)
  }

  lemma {:induction false} HexRoundTrip(v: nat, n: nat)
    requires v < Pow16(n)
    ensures HexValue(ToHex(v, n)) == v
  {
    if n > 0 {
      HexRoundTrip(v / 16, n - 1);
      var s := ToHex(v, n);
      assert s[..|s| - 1] == ToHex(v / 16, n - 1);
    }
  }

  /** An id a client received from the service parses back to the same stored id. */
  lemma ObjectIdRoundTrip(v: nat)
    requires v < Pow16(ID_DIGITS)
    ensures ParseObjectId(FormatObjectId(v)) == Some(v)
  {
    HexRoundTrip(v, ID_DIGITS);
  }

  lemma {:induction false} HexValueIgnoresCase(s: string)
    requires AllHex(s)
    ensures AllHex(Lower(s)) && HexValue(Lower(s)) == HexValue(s)
    decreases |s|
  {
    if |s| > 0 {
      var t := s[..|s| - 1];
      HexValueIgnoresCase(t);
      assert Lower(s)[..|s| - 1] == Lower(t);
    }
  }

  /** Upper- and lower-case spellings of an id name the same document. */
  lemma ParseIgnoresCase(s: string)
    ensures ParseObjectId(Lower(s)) == ParseObjectId(s)
  {
    if AllHex(s) {
      HexValueIgnoresCase(s);
    } else {
      var i :| 0 <= i < |s| && !IsHexDigit(s[i]);
      assert !IsHexDigit(Lower(s)[i]);
    }
  }
}
