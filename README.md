# my_uart_peripheral driver core, in Dafny

This project models the logic of the Zephyr `my_uart_peripheral` driver
(`drivers/my_uart_peripheral/driver.c`) and proves properties of it. One
driver instance owns a runtime data record (`struct my_uart_data`) with the
following fields:

- a NUL-terminated transmit string `str` of capacity `MAX_STR_LEN + 1`;
- a receive buffer `rx_buf` of capacity `RX_BUF_SIZE` and its fill count
  `rx_data_len`;
- a nullable record callback and the user data passed to it.

The driver has four operations:

- **Receive framer.** The drain loop of the UART interrupt handler stores each
  byte at `rx_data_len`. A 0 byte closes a record, delivered with
  `is_string = true`. A byte that fills the buffer closes a truncated record,
  delivered with `is_string = false`. After a record closes, the buffer is
  emptied and zero-filled, whether or not a callback is registered.
- **Transmit.** On a GPIO edge, the driver writes the transmit string up to its
  terminator, then one 0 byte.
- **`user_set_string`** copies a string of at most `MAX_STR_LEN` bytes into the
  transmit buffer and terminates it.
- **`user_set_string_callback`** replaces the callback and its user data.

Files:

- `wrappers.dfy`: the `Option` type, used for the nullable callback.
- `rx_framer.dfy` (module `RxFramer`): the receive framer as pure functions.
  `Step` processes one byte. `Frame` runs the drain loop over a byte sequence.
  A `Delivery` records one callback invocation: the handler, a snapshot of the
  whole receive buffer it points into, `length`, `is_string` and the user data.
  The module's lemmas are the framer's properties.
- `c_string.dfy` (module `CString`): `strlen`, and the lemma that ties what
  `user_set_string` stores to what the transmit routine sends.
- `driver.dfy` (module `MyUartPeripheral`): class `Peripheral` holds the
  record's fields. `rx_buf` and `str` are arrays updated in place. The
  constructor is the static initialiser. The driver's functions are methods
  proved against `RxFramer` and `CString`.

`RX_BUF_SIZE` and `MAX_STR_LEN` are Kconfig values that are not part of this
model. They are constant fields fixed by the constructor: `RX_BUF_SIZE` must be
positive, and `MAX_STR_LEN` can be any value. The UART device appears only as
data:

- The bytes that `uart_poll_in` returns during one interrupt are the
  `available` parameter of `HandleUartInterrupt`.
- `uart_irq_rx_ready` is the `rxReady` parameter.
- The bytes passed to `uart_poll_out` are the sequence returned by
  `TransmitString`.
- Every invocation of the record callback is returned as a `Delivery`.

Bytes are `bv8`. The `char` to `uint8_t` conversion does not change the
comparison with 0.

Notes on what the code does:

- `user_set_string` has no error return. It only `__ASSERT`s
  `length <= MAX_STR_LEN` (driver.c:51), so the bound is a precondition of
  `SetString`.
- A 0 byte that arrives first is delivered with `length == 1`, because
  `rx_data_len` counts it before the callback runs (driver.c:112-119).
- When the byte that fills the buffer is 0, the record is delivered as a
  string, because the sentinel test comes first (driver.c:115, 124).

## Model

| member | source | states |
|---|---|---|
| `MyUartPeripheral.Peripheral.constructor` | drivers/my_uart_peripheral/driver.c:205-211 | The initial state: `rx_data_len == 0`, an all-zero receive buffer, no callback, NULL user data, and `str` holding the configured initial string zero-padded. The object invariant `Valid` holds. |
| `MyUartPeripheral.Peripheral.SetString` | drivers/my_uart_peripheral/driver.c:48-54 | Requires `length <= MAX_STR_LEN`. Afterwards `str[0..length)` is the input and `str[length] == 0`. The bytes after the terminator are unchanged, and so are `rx_buf` and `rx_data_len`. `Valid` is kept. |
| `MyUartPeripheral.Peripheral.SetCallback` | drivers/my_uart_peripheral/driver.c:63-68 | Callback and user data are both replaced by the arguments. The receive buffer, its length and the transmit string are unchanged. |
| `MyUartPeripheral.Peripheral.TransmitString` | drivers/my_uart_peripheral/driver.c:82-93 | The bytes written are the transmit string up to its first 0 byte (`strlen(str)` bytes, none of them 0), in order, followed by exactly one 0 byte. `str` is only read. |
| `MyUartPeripheral.Peripheral.ReceiveByte` | drivers/my_uart_peripheral/driver.c:111-132 | One pass of the drain loop. The write `rx_buf[rx_data_len]` is in bounds because `Valid` gives `rx_data_len < RX_BUF_SIZE` before each byte. A non-zero byte that leaves room is stored at the old length, the length goes up by one, and no other buffer byte changes. A 0 byte, or a byte that fills the buffer, resets the length to 0 and zero-fills the buffer. It causes exactly one delivery when a callback is set and none otherwise. The new state and the deliveries are `Step` of the old pending bytes. |
| `MyUartPeripheral.Peripheral.HandleUartInterrupt` | drivers/my_uart_peripheral/driver.c:101-135 | If the UART reports no data, nothing changes. Otherwise the callback value read before the loop is used for the whole drain. The bytes still buffered afterwards and the deliveries made are `Frame` of the bytes buffered before and the bytes drained. `Valid`, including the bound, holds after every byte. |
| `RxFramer.Step` | drivers/my_uart_peripheral/driver.c:112-132 | After one byte, the buffered bytes stay below capacity and contain no 0 byte. Nothing is delivered when no callback is set. |
| `RxFramer.Frame` | drivers/my_uart_peripheral/driver.c:108-133 | For any byte sequence, the buffered length is below `RX_BUF_SIZE` after every byte, so the next store always has a slot. No 0 byte stays buffered. Without a callback nothing is delivered. |
| `RxFramer.StepShaped` | drivers/my_uart_peripheral/driver.c:112-131 | A record closed by one byte goes to the snapshot callback with `data->user_data`. Its buffer is `RX_BUF_SIZE` bytes: the record, then zeros. `is_string` is true exactly when its last byte is 0. A non-string record has `length == RX_BUF_SIZE`. |
| `RxFramer.FrameShaped` | drivers/my_uart_peripheral/driver.c:108-131 | Every delivery of a whole drain has the shape `StepShaped` describes, and all use the one callback read before the loop. |
| `RxFramer.StepKeepsBytes` | drivers/my_uart_peripheral/driver.c:112-131 | With a callback set, one byte either stays buffered after the buffered bytes, or closes a delivered record made of the buffered bytes and that byte. |
| `RxFramer.NoByteLost` | drivers/my_uart_peripheral/driver.c:110-133 | With a callback set, the delivered records in order, followed by the bytes still buffered, are exactly the bytes buffered before followed by the bytes drained. |
| `RxFramer.OneStringPerSentinel` | drivers/my_uart_peripheral/driver.c:115-120 | With a callback set, the number of deliveries with `is_string = true` equals the number of 0 bytes drained. |
| `RxFramer.FrameAppend` | drivers/my_uart_peripheral/driver.c:110-133 | Two interrupts that drain `a` and then `b` with the same callback have the same result as one interrupt that drains `a + b`. |
| `RxFramer.FramingIgnoresCallback` | drivers/my_uart_peripheral/driver.c:117-131 | The buffer is reset at the same points whether or not a callback is registered. Only the deliveries differ. |
| `RxFramer.Accumulate` | drivers/my_uart_peripheral/driver.c:112-114 | Non-zero bytes that leave room are appended after the buffered bytes in order, and nothing is delivered. |
| `RxFramer.SentinelClosesRecord` | drivers/my_uart_peripheral/driver.c:112-122 | From an empty buffer, non-zero bytes `s` with `|s| < RX_BUF_SIZE`, then a 0 byte, make exactly one delivery. It has `is_string = true`, `length == |s| + 1` (1 when the 0 comes first), and the buffer `s + [0]` followed by zeros. The bytes after it are framed from an empty buffer. |
| `RxFramer.FullBufferTruncates` | drivers/my_uart_peripheral/driver.c:124-131 | From an empty buffer, `RX_BUF_SIZE` non-zero bytes make exactly one delivery with `is_string = false`, `length == RX_BUF_SIZE`, and those bytes as the buffer. The bytes after them start a fresh record at offset 0. |
| `CString.StrLen` | drivers/my_uart_peripheral/driver.c:87 | `strlen`: every byte before the result is non-zero, and the byte at the result is 0 when the result lies inside the buffer. |
| `CString.TextAfterStore` | drivers/my_uart_peripheral/driver.c:52-53 | After `text` and a terminating 0 are stored at the start of a buffer, the buffer's string is `text` cut at its first 0 byte. When `text` has no 0 byte it is `text` itself, so the next transmit sends `text + [0]`. |
| `MyUartPeripheral.SetStringThenTransmit` | drivers/my_uart_peripheral/driver.c:48-93 | Setting a string with no 0 byte and then transmitting sends exactly that string followed by one 0 byte, and `Valid` is kept. |

## Left out

- Device bring-up (`init_uart`, `init_gpio`, `init_my_uart_peripheral`, the devicetree and `DEVICE_DT_INST_DEFINE` macros, driver.c:137-227 apart from the data initialiser): registration and hardware configuration through foreign calls.
- The Zephyr UART and GPIO calls (`uart_irq_update`, `uart_irq_rx_ready`, `uart_poll_in`, `uart_poll_out`, `gpio_*`), `CONTAINER_OF` and logging: each is an external device call. They appear as parameters and returned sequences, as described above.
- The behaviour of the user's record callback: it is foreign code. Each invocation is recorded as a `Delivery` and cannot change the driver's state in the model. The `dev` argument is not recorded, because one instance is modelled.
- Interrupt preemption between the UART handler, the GPIO callback and the setters, including the atomic replacement of the callback and user-data pair: each operation is modelled as atomic and sequential.
- `MyUartPeripheral.Peripheral.SetString`: the `length <= MAX_STR_LEN` bound is a precondition. The driver only asserts it, and with assertions compiled out `memcpy` would overrun `str`. The model does not describe that overrun.
- `MyUartPeripheral.Peripheral.constructor`: requires the initial string to have at most `MAX_STR_LEN` bytes. C accepts an initialiser of exactly `MAX_STR_LEN + 1` characters and then leaves `str` without a terminator. That configuration is not modelled.
- `drivers/my_uart_peripheral/api.h`: it only dispatches through function pointers to the two setters.
- `src/main.c`: a demo consumer of the callback that prints and counts.
