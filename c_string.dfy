/**
 * NUL-terminated byte strings, as the driver's transmit buffer holds them.
 */
module CString {

  /**
   * strlen: the number of bytes before the first 0 byte (all of `s` when it
   * has none).
   */
  function StrLen(s: seq<bv8>): (n: nat)
    ensures n <= |s|
    ensures forall i :: 0 <= i < n ==> s[i] != 0
    ensures n < |s| ==> s[n] == 0
  {
    if s == [] || s[0] == 0 then 0 else 1 + StrLen(s[1..])
  }

  /** The string a buffer holds: its bytes before the first 0 byte. */
  function Text(s: seq<bv8>): seq<bv8>
  {
    s[..StrLen(s)]
  }

  /**
   * A buffer whose first bytes are `text` followed by a terminating 0 holds
   * the string `text` cut at its first 0 byte, whatever follows the
   * terminator; when `text` has no 0 byte, that is `text` itself.
   */
  lemma TextAfterStore(buf: seq<bv8>, text: seq<bv8>)
    requires |text| < |buf| && buf[..|text|] == text && buf[|text|] == 0
    ensures Text(buf) == Text(text)
    ensures (forall i :: 0 <= i < |text| ==> text[i] != 0) ==> Text(buf) == text
  {
    var n := StrLen(text);
    assert forall i :: 0 <= i < |text| ==> buf[i] == text[i];
    assert StrLen(buf) == n;
  }
}
