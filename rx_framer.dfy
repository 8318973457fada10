/**
 * The receive framer of the UART peripheral driver, as pure functions.
 *
 * The interrupt handler appends every byte it polls to a receive buffer of
 * capacity `cap` (RX_BUF_SIZE). A 0 byte closes a record that is handed to the
 * record callback with is_string = true; a byte that fills the buffer closes a
 * record handed over with is_string = false. After either, the buffer length
 * goes back to 0 and the buffer is zero-filled, whether or not a callback is
 * registered.
 *
 * Between two bytes the receive side is fully described by the bytes received
 * since the last record closed (`pending`): the buffer is those bytes followed
 * by zeros.
 */
module RxFramer {
  import opened Wrappers

  /** Identity of a record callback (a function pointer in the driver). */
  type Handler = nat

  /** The opaque user-data pointer handed back to the callback; 0 is NULL. */
  type Context = nat

  /**
   * One invocation of the record callback: the callback invoked, the contents
   * of the whole receive buffer it is given a pointer to, the length and
   * is_string arguments, and the user data.
   */
  datatype Delivery = Delivery(handler: Handler, buffer: seq<bv8>, length: nat, isString: bool, userData: Context)

  /** Receive-side state after some bytes, together with the callbacks they caused. */
  datatype Framing = Framing(pending: seq<bv8>, deliveries: seq<Delivery>)

  predicate NoZero(s: seq<bv8>)
  {
    forall i :: 0 <= i < |s| ==> s[i] != 0
  }

  predicate AllZero(s: seq<bv8>)
  {
    forall i :: 0 <= i < |s| ==> s[i] == 0
  }

  function Zeros(n: nat): (z: seq<bv8>)
    ensures |z| == n && AllZero(z)
  {
    seq(n, _ => 0)
  }

  /** The bytes of a delivered record: the first `length` bytes of the buffer. */
  function Record(d: Delivery): seq<bv8>
  {
    if d.length <= |d.buffer| then d.buffer[..d.length] else d.buffer
  }

  /**
   * What every callback invocation looks like: it goes to the registered
   * callback with its user data; the buffer holds a non-empty record followed
   * by zeros; only the last byte of the record may be 0, and it is exactly
   * when is_string is set; a record that is not a string fills the buffer.
   */
  predicate Shaped(cap: nat, h: Handler, userData: Context, d: Delivery)
  {
    d.handler == h && d.userData == userData &&
    |d.buffer| == cap && 0 < d.length <= cap &&
    NoZero(d.buffer[..d.length - 1]) && AllZero(d.buffer[d.length..]) &&
    (d.isString <==> d.buffer[d.length - 1] == 0) &&
    (!d.isString ==> d.length == cap)
  }

  /** The callback invocation for a closed record `rec`, if a callback is registered. */
  function Deliver(cap: nat, callback: Option<Handler>, rec: seq<bv8>, isString: bool, userData: Context): seq<Delivery>
    requires |rec| <= cap
  {
    match callback
    case None => []
    case Some(h) => [Delivery(h, rec + Zeros(cap - |rec|), |rec|, isString, userData)]
  }

  /**
   * One iteration of the drain loop: append `c`; a 0 byte closes a string
   * record; otherwise a buffer left with no capacity closes a truncated one.
   */
  function Step(cap: nat, pending: seq<bv8>, c: bv8, callback: Option<Handler>, userData: Context): (s: Framing)
    requires |pending| < cap && NoZero(pending)
    ensures |s.pending| < cap && NoZero(s.pending)
    ensures callback.None? ==> s.deliveries == []
  {
    var rec := pending + [c];
    if c == 0 then
      Framing([], Deliver(cap, callback, rec, true, userData))
    else if cap - |rec| == 0 then
      Framing([], Deliver(cap, callback, rec, false, userData))
    else
      Framing(rec, [])
  }

  /**
   * The drain loop over `input`, started with `pending` in the buffer, with
   * one callback value read before the loop: every byte is processed in
   * order, the buffer length stays below `cap` between bytes (so the next
   * byte always has a slot), and nothing is delivered without a callback.
   */
  function Frame(cap: nat, pending: seq<bv8>, input: seq<bv8>, callback: Option<Handler>, userData: Context): (f: Framing)
    requires |pending| < cap && NoZero(pending)
    ensures |f.pending| < cap && NoZero(f.pending)
    ensures callback.None? ==> f.deliveries == []
    decreases |input|
  {
    if input == [] then
      Framing(pending, [])
    else
      var f := Frame(cap, pending, input[..|input| - 1], callback, userData);
      var s := Step(cap, f.pending, input[|input| - 1], callback, userData);
      Framing(s.pending, f.deliveries + s.deliveries)
  }

  /** A record closed by one byte is delivered Shaped. */
  lemma StepShaped(cap: nat, pending: seq<bv8>, c: bv8, callback: Option<Handler>, userData: Context)
    requires |pending| < cap && NoZero(pending)
    ensures forall d <- Step(cap, pending, c, callback, userData).deliveries ::
              callback.Some? && Shaped(cap, callback.value, userData, d)
  {
    var rec := pending + [c];
    assert rec[..|rec| - 1] == pending;
    assert (rec + Zeros(cap - |rec|))[..|rec| - 1] == pending;
  }

  /** Every callback invocation a drain makes is Shaped. */
  lemma {:induction false} FrameShaped(cap: nat, pending: seq<bv8>, input: seq<bv8>, callback: Option<Handler>, userData: Context)
    requires |pending| < cap && NoZero(pending)
    ensures forall d <- Frame(cap, pending, input, callback, userData).deliveries ::
              callback.Some? && Shaped(cap, callback.value, userData, d)
    decreases |input|
  {
    if input != [] {
      var init := input[..|input| - 1];
      FrameShaped(cap, pending, init, callback, userData);
      StepShaped(cap, Frame(cap, pending, init, callback, userData).pending, input[|input| - 1], callback, userData);
    }
  }

  /** All delivered records, concatenated in delivery order. */
  function Received(ds: seq<Delivery>): seq<bv8>
  {
    if ds == [] then [] else Received(ds[..|ds| - 1]) + Record(ds[|ds| - 1])
  }

  /** The number of 0 bytes in `s`. */
  function ZeroCount(s: seq<bv8>): nat
  {
    if s == [] then 0 else ZeroCount(s[..|s| - 1]) + (if s[|s| - 1] == 0 then 1 else 0)
  }

  /** The number of deliveries made with is_string = true. */
  function StringCount(ds: seq<Delivery>): nat
  {
    if ds == [] then 0 else StringCount(ds[..|ds| - 1]) + (if ds[|ds| - 1].isString then 1 else 0)
  }

  /** Sequence helper: kept apart so that big proofs need not rediscover it. */
  lemma SeqAssoc<T>(a: seq<T>, b: seq<T>, c: seq<T>)
    ensures a + b + c == a + (b + c)
  {
  }

  /** Sequence helper: kept apart so that big proofs need not rediscover it. */
  lemma AppendEmpty<T>(a: seq<T>)
    ensures [] + a == a && a + [] == a
  {
  }

  /** Proof helper: unfolds `Frame` once for an input ending in `c`. */
  lemma FrameSnoc(cap: nat, pending: seq<bv8>, init: seq<bv8>, c: bv8, callback: Option<Handler>, userData: Context)
    requires |pending| < cap && NoZero(pending)
    ensures var f := Frame(cap, pending, init, callback, userData);
            var s := Step(cap, f.pending, c, callback, userData);
            Frame(cap, pending, init + [c], callback, userData) == Framing(s.pending, f.deliveries + s.deliveries)
  {
    assert (init + [c])[..|init|] == init;
  }

  /** One byte either stays buffered or closes a record made of the buffered bytes and itself. */
  lemma StepKeepsBytes(cap: nat, pending: seq<bv8>, c: bv8, h: Handler, userData: Context)
    requires |pending| < cap && NoZero(pending)
    ensures var s := Step(cap, pending, c, Some(h), userData);
            Received(s.deliveries) + s.pending == pending + [c]
  {
    var rec := pending + [c];
    if c == 0 || cap - |rec| == 0 {
      assert (rec + Zeros(cap - |rec|))[..|rec|] == rec;
    }
  }

  /** Received distributes over concatenation. */
  lemma {:induction false} ReceivedAppend(a: seq<Delivery>, b: seq<Delivery>)
    ensures Received(a + b) == Received(a) + Received(b)
    decreases |b|
  {
    if b == [] {
      assert a + b == a;
    } else {
      var init := b[..|b| - 1];
      assert (a + b)[..|a + b| - 1] == a + init;
      ReceivedAppend(a, init);
    }
  }

  /**
   * No byte is lost: with a callback registered, the delivered records
   * followed by what is still buffered are exactly the bytes that were
   * buffered followed by the bytes received.
   */
  lemma {:induction false} NoByteLost(cap: nat, pending: seq<bv8>, input: seq<bv8>, h: Handler, userData: Context)
    requires |pending| < cap && NoZero(pending)
    ensures var f := Frame(cap, pending, input, Some(h), userData);
            Received(f.deliveries) + f.pending == pending + input
    decreases |input|
  {
    if input != [] {
      var init, c := input[..|input| - 1], input[|input| - 1];
      assert input == init + [c];
      NoByteLost(cap, pending, init, h, userData);
      FrameSnoc(cap, pending, init, c, Some(h), userData);
      var f := Frame(cap, pending, init, Some(h), userData);
      var s := Step(cap, f.pending, c, Some(h), userData);
      StepKeepsBytes(cap, f.pending, c, h, userData);
      ReceivedAppend(f.deliveries, s.deliveries);
      var r, rs := Received(f.deliveries), Received(s.deliveries);
      SeqAssoc(r, rs, s.pending);
      SeqAssoc(r, f.pending, [c]);
      SeqAssoc(pending, init, [c]);
    }
  }

  /** Exactly one string record is delivered per 0 byte received. */
  lemma {:induction false} OneStringPerSentinel(cap: nat, pending: seq<bv8>, input: seq<bv8>, h: Handler, userData: Context)
    requires |pending| < cap && NoZero(pending)
    ensures StringCount(Frame(cap, pending, input, Some(h), userData).deliveries) == ZeroCount(input)
    decreases |input|
  {
    if input != [] {
      var init, c := input[..|input| - 1], input[|input| - 1];
      OneStringPerSentinel(cap, pending, init, h, userData);
      var f := Frame(cap, pending, init, Some(h), userData);
      var s := Step(cap, f.pending, c, Some(h), userData);
      var ds := f.deliveries + s.deliveries;
      if s.deliveries != [] {
        assert ds[..|ds| - 1] == f.deliveries;
      } else {
        assert ds == f.deliveries;
      }
    }
  }

  /**
   * Draining `a` and then `b` in two interrupts, with the same callback,
   * is the same as draining `a + b` in one.
   */
  lemma {:induction false} FrameAppend(cap: nat, pending: seq<bv8>, a: seq<bv8>, b: seq<bv8>, callback: Option<Handler>, userData: Context)
    requires |pending| < cap && NoZero(pending)
    ensures var fa := Frame(cap, pending, a, callback, userData);
            var fb := Frame(cap, fa.pending, b, callback, userData);
            Frame(cap, pending, a + b, callback, userData) == Framing(fb.pending, fa.deliveries + fb.deliveries)
    decreases |b|
  {
    if b == [] {
      assert a + b == a;
    } else {
      var init := b[..|b| - 1];
      assert (a + b)[..|a + b| - 1] == a + init;
      FrameAppend(cap, pending, a, init, callback, userData);
      var fa := Frame(cap, pending, a, callback, userData);
      var fi := Frame(cap, fa.pending, init, callback, userData);
      var s := Step(cap, fi.pending, b[|b| - 1], callback, userData);
      assert fa.deliveries + fi.deliveries + s.deliveries == fa.deliveries + (fi.deliveries + s.deliveries);
    }
  }

  /**
   * Record boundaries do not depend on the callback: with no callback
   * registered the buffer is reset at the same points, only nothing is
   * delivered.
   */
  lemma {:induction false} FramingIgnoresCallback(cap: nat, pending: seq<bv8>, input: seq<bv8>,
                                                  callback: Option<Handler>, userData: Context)
    requires |pending| < cap && NoZero(pending)
    ensures Frame(cap, pending, input, callback, userData).pending == Frame(cap, pending, input, None, 0).pending
    decreases |input|
  {
    if input != [] {
      FramingIgnoresCallback(cap, pending, input[..|input| - 1], callback, userData);
    }
  }

  /**
   * Non-zero bytes that leave room in the buffer are appended after the
   * buffered ones, and nothing is delivered.
   */
  lemma {:induction false} Accumulate(cap: nat, pending: seq<bv8>, s: seq<bv8>, callback: Option<Handler>, userData: Context)
    requires |pending| + |s| < cap && NoZero(pending) && NoZero(s)
    ensures Frame(cap, pending, s, callback, userData) == Framing(pending + s, [])
    decreases |s|
  {
    if s == [] {
      assert pending + s == pending;
    } else {
      var init := s[..|s| - 1];
      Accumulate(cap, pending, init, callback, userData);
      assert pending + init + [s[|s| - 1]] == pending + s;
    }
  }

  /**
   * From an empty buffer, non-zero bytes `s` that fit followed by a 0 byte
   * make exactly one string delivery of length |s| + 1 (length 1 when the 0
   * comes first), whose buffer is the record followed by zeros; the bytes
   * `t` after it start a fresh record.
   */
  lemma SentinelClosesRecord(cap: nat, s: seq<bv8>, t: seq<bv8>, h: Handler, userData: Context)
    requires |s| < cap && NoZero(s)
    ensures var ft := Frame(cap, [], t, Some(h), userData);
            Frame(cap, [], s + [0] + t, Some(h), userData)
            == Framing(ft.pending, [Delivery(h, s + [0] + Zeros(cap - |s| - 1), |s| + 1, true, userData)] + ft.deliveries)
  {
    var rec := s + [0];
    Accumulate(cap, [], s, Some(h), userData);
    AppendEmpty(s);
    FrameSnoc(cap, [], s, 0, Some(h), userData);
    var st := Step(cap, s, 0, Some(h), userData);
    AppendEmpty(st.deliveries);
    assert Frame(cap, [], rec, Some(h), userData) == st;
    FrameAppend(cap, [], rec, t, Some(h), userData);
  }

  /**
   * From an empty buffer, `cap` non-zero bytes make exactly one delivery with
   * is_string = false and length `cap`; the bytes `t` after them start a
   * fresh record.
   */
  lemma FullBufferTruncates(cap: nat, s: seq<bv8>, t: seq<bv8>, h: Handler, userData: Context)
    requires 0 < cap && |s| == cap && NoZero(s)
    ensures var ft := Frame(cap, [], t, Some(h), userData);
            Frame(cap, [], s + t, Some(h), userData)
            == Framing(ft.pending, [Delivery(h, s, cap, false, userData)] + ft.deliveries)
  {
    var init, c := s[..|s| - 1], s[|s| - 1];
    assert init + [c] == s;
    Accumulate(cap, [], init, Some(h), userData);
    AppendEmpty(init);
    FrameSnoc(cap, [], init, c, Some(h), userData);
    var st := Step(cap, init, c, Some(h), userData);
    AppendEmpty(st.deliveries);
    AppendEmpty(s);
    assert Zeros(0) == [];
    assert Frame(cap, [], s, Some(h), userData) == st;
    FrameAppend(cap, [], s, t, Some(h), userData);
  }
}
