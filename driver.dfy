/**
 * One instance of the my_uart_peripheral driver: its runtime data record, the
 * receive loop of its UART interrupt handler, the transmit routine run on a
 * GPIO edge, and the two configuration calls of its API.
 *
 * The UART and GPIO devices are outside the model: the bytes that
 * uart_poll_in hands out during one interrupt are the `available` parameter,
 * the bytes passed to uart_poll_out are a returned sequence, and every call of
 * the registered record callback is returned as a Delivery.
 */
module MyUartPeripheral {
  import opened Wrappers
  import opened RxFramer
  import opened CString

  /** struct my_uart_data, with the build-time sizes it is declared with. */
  class Peripheral {
    /** CONFIG_MY_UART_PERIPHERAL_RX_BUF_SIZE */
    const rxBufSize: nat
    /** CONFIG_MY_UART_PERIPHERAL_MAX_STR_LEN */
    const maxStrLen: nat

    /** The string to transmit, NUL-terminated; one byte longer than maxStrLen. */
    const str: array<bv8>
    /** The bytes of the record being received. */
    const rxBuf: array<bv8>
    /** How many bytes of rxBuf hold the record being received. */
    var rxDataLen: nat
    /** The record callback, None for NULL. */
    var stringCallback: Option<Handler>
    /** The user data passed to the record callback. */
    var userData: Context

    /**
     * Between two operations: the buffers have their declared sizes and are
     * distinct, the record being received leaves a free slot, holds no 0 byte
     * (a 0 byte would have closed it) and is followed by zeros only, and the
     * transmit string is terminated inside its buffer.
     */
    ghost predicate Valid()
      reads this, rxBuf, str
    {
      rxBuf != str &&
      rxBuf.Length == rxBufSize && str.Length == maxStrLen + 1 &&
      rxDataLen < rxBufSize &&
      NoZero(rxBuf[..rxDataLen]) && AllZero(rxBuf[rxDataLen..]) &&
      StrLen(str[..]) < str.Length
    }

    /** The bytes received since the last record was closed. */
    ghost function Pending(): seq<bv8>
      reads this, rxBuf
      requires rxDataLen <= rxBuf.Length
    {
      rxBuf[..rxDataLen]
    }

    /**
     * The static initialiser: empty zeroed receive buffer, no callback, NULL
     * user data, and the configured initial string (zero-padded).
     */
    constructor (rxBufSize: nat, maxStrLen: nat, initialString: seq<bv8>)
      requires 0 < rxBufSize && |initialString| <= maxStrLen
      ensures Valid() && fresh(rxBuf) && fresh(str)
      ensures this.rxBufSize == rxBufSize && this.maxStrLen == maxStrLen
      ensures rxDataLen == 0 && AllZero(rxBuf[..])
      ensures str[..] == initialString + Zeros(maxStrLen + 1 - |initialString|)
      ensures stringCallback == None && userData == 0
    {
      this.rxBufSize := rxBufSize;
      this.maxStrLen := maxStrLen;
      rxBuf := new bv8[rxBufSize](_ => 0);
      str := new bv8[maxStrLen + 1](i => if 0 <= i < |initialString| then initialString[i] else 0);
      rxDataLen := 0;
      stringCallback := None;
      userData := 0;
      new;
      assert str[..] == initialString + Zeros(maxStrLen + 1 - |initialString|);
      assert str[|initialString|] == 0;
    }

    /**
     * user_set_string: copy `text` (whose length is the `length` argument)
     * into the transmit buffer and terminate it. The length bound is an
     * assertion in the driver, so it is a precondition here. The bytes after
     * the terminator and the receive side are left alone.
     */
    method SetString(text: seq<bv8>)
      requires Valid() && |text| <= maxStrLen
      modifies str
      ensures Valid()
      ensures str[..|text|] == text && str[|text|] == 0
      ensures str[|text| + 1..] == old(str[|text| + 1..])
      ensures unchanged(rxBuf) && rxDataLen == old(rxDataLen)
    {
      forall i | 0 <= i < |text| {
        str[i] := text[i];
      }
      str[|text|] := 0;
    }

    /**
     * user_set_string_callback: replace the callback and its user data as a
     * pair; the receive side is left alone.
     */
    method SetCallback(callback: Option<Handler>, data: Context)
      requires Valid()
      modifies this`stringCallback, this`userData
      ensures Valid()
      ensures stringCallback == callback && userData == data
      ensures rxDataLen == old(rxDataLen) && unchanged(rxBuf) && unchanged(str)
    {
      stringCallback := callback;
      userData := data;
    }

    /**
     * transmit_string: send the bytes of the transmit string up to its
     * terminator, in order, then one 0 byte. The string is only read.
     */
    method TransmitString() returns (out: seq<bv8>)
      requires Valid()
      ensures |out| == StrLen(str[..]) + 1
      ensures out[..|out| - 1] == Text(str[..]) && out[|out| - 1] == 0
      ensures NoZero(out[..|out| - 1])
    {
      var len := StrLen(str[..]);
      out := [];
      for i := 0 to len
        invariant out == str[..i]
      {
        out := out + [str[i]];
      }
      out := out + [0];
      assert out[..|out| - 1] == str[..len];
    }

    /** The whole receive buffer is the received bytes followed by zeros. */
    lemma ZerosAfter()
      requires rxDataLen <= rxBuf.Length && AllZero(rxBuf[rxDataLen..])
      ensures rxBuf[..] == rxBuf[..rxDataLen] + Zeros(rxBuf.Length - rxDataLen)
    {
      assert rxBuf[..] == rxBuf[..rxDataLen] + rxBuf[rxDataLen..];
      assert rxBuf[rxDataLen..] == Zeros(rxBuf.Length - rxDataLen);
    }

    /**
     * One pass of the drain loop in uart_int_handler, with the callback value
     * read before the loop: store `c` at rxDataLen and count it; a 0 byte
     * closes a string record, otherwise a buffer with no capacity left closes
     * a truncated one; a closed record is handed to the callback (when there
     * is one) and the buffer is emptied and zero-filled.
     */
    method ReceiveByte(c: bv8, callback: Option<Handler>) returns (delivered: seq<Delivery>)
      requires Valid()
      modifies this`rxDataLen, rxBuf
      ensures Valid()
      ensures var s := Step(rxBufSize, old(Pending()), c, callback, userData);
              Pending() == s.pending && delivered == s.deliveries
      ensures c != 0 && old(rxDataLen) + 1 < rxBufSize ==>
                rxDataLen == old(rxDataLen) + 1 && rxBuf[..] == old(rxBuf[..])[old(rxDataLen) := c] && delivered == []
      ensures c == 0 || old(rxDataLen) + 1 == rxBufSize ==>
                rxDataLen == 0 && AllZero(rxBuf[..]) && |delivered| == (if callback.Some? then 1 else 0)
    {
      ghost var before := Pending();
      delivered := [];
      rxBuf[rxDataLen] := c;
      rxDataLen := rxDataLen + 1;
      assert rxBuf[..rxDataLen] == before + [c];
      var capacity := rxBufSize - rxDataLen;
      if c == 0 {
        // A string is complete.
        ZerosAfter();
        if callback.Some? {
          delivered := [Delivery(callback.value, rxBuf[..], rxDataLen, true, userData)];
        }
        rxDataLen := 0;
        forall k | 0 <= k < rxBuf.Length {
          rxBuf[k] := 0;
        }
      } else if capacity == 0 {
        // The buffer is full and no string was found.
        ZerosAfter();
        if callback.Some? {
          delivered := [Delivery(callback.value, rxBuf[..], rxDataLen, false, userData)];
        }
        rxDataLen := 0;
        forall k | 0 <= k < rxBuf.Length {
          rxBuf[k] := 0;
        }
      }
      assert str[..] == old(str[..]);
    }

    /**
     * uart_int_handler: when the UART reports received data, read the
     * callback once and drain every byte the UART has available, in order.
     */
    method HandleUartInterrupt(rxReady: bool, available: seq<bv8>) returns (delivered: seq<Delivery>)
      requires Valid()
      modifies this`rxDataLen, rxBuf
      ensures Valid()
      ensures rxReady ==>
                var f := Frame(rxBufSize, old(Pending()), available, stringCallback, userData);
                Pending() == f.pending && delivered == f.deliveries
      ensures !rxReady ==> Pending() == old(Pending()) && delivered == []
    {
      delivered := [];
      if !rxReady {
        return;
      }
      var callback := stringCallback;
      ghost var start := Pending();
      var i := 0;
      while i < |available|
        invariant 0 <= i <= |available|
        invariant Valid()
        invariant var f := Frame(rxBufSize, start, available[..i], callback, userData);
                  Pending() == f.pending && delivered == f.deliveries
      {
        FrameSnoc(rxBufSize, start, available[..i], available[i], callback, userData);
        assert available[..i + 1] == available[..i] + [available[i]];
        var d := ReceiveByte(available[i], callback);
        delivered := delivered + d;
        i := i + 1;
      }
      assert available[..i] == available;
    }
  }

  /**
   * A caller that sets the transmit string and then sees a GPIO edge: when
   * the string holds no 0 byte, exactly that string and one 0 byte are sent.
   */
  method SetStringThenTransmit(p: Peripheral, text: seq<bv8>) returns (out: seq<bv8>)
    requires p.Valid() && |text| <= p.maxStrLen && NoZero(text)
    modifies p.str
    ensures p.Valid()
    ensures out == text + [0]
  {
    p.SetString(text);
    TextAfterStore(p.str[..], text);
    out := p.TransmitString();
  }
}
