# ByteEncoder and the CSS border/outline-style values, modelled in Dafny

This project models two parts of the `pump` Java library.

**`com.pump.io.ByteEncoder`** turns bytes pushed in one by one into chunks
(batches of bytes) that a consumer pulls out. Its state is a `closed` flag, a
one-chunk mailbox (`outgoingData`) and an optional `DataListener`. The model
drives it on one thread through its listener, which is the single-threaded
mode the class documents. With a listener installed, `pushChunk` fills the
mailbox and the listener empties it before control returns, so every
operation is a plain state change of the class `ByteEncoding.ByteEncoder`.

The class also holds the state of the two stream adapters:
- the input adapter's queue of chunks, each with a read cursor, and its source;
- the output adapter's sink.

`push` and `flush` are abstract in the source. The model gives them one
concrete encoding: bytes are batched into chunks of `chunkSize` bytes, and
`flush` emits the leftover bytes as a last chunk. With `chunkSize` 1 this is
the identity encoding, one chunk per byte.

What is proved:
- `pullImmediately` has three outcomes;
- `close` is idempotent, and `closed` only ever goes from false to true;
- each queued chunk's cursor stays inside the chunk;
- reading a fresh input adapter to its end returns exactly the source bytes,
  in order;
- each `read` serves the first of the bytes still to serve, and when it
  refills the queue, the queue then holds exactly the chunks emitted during
  the call;
- the bytes reaching the output sink are the concatenation, in order, of the
  chunks emitted, and `encode` returns exactly the pending bytes followed by
  its input.

**`CssBorderStyleValue` and `CssOutlineStyleParser`** handle the keyword value
of the CSS `border-style` property (section 4.2 of CSS Backgrounds and Borders
Level 3) and of `outline-style` (CSS Basic User Interface Level 4). `border-style` has ten keywords, matched without regard to case.
The outline parser reads `auto` as `solid` and refuses `hidden`. Java's
`toUpperCase`, `toLowerCase` and `trim` are modelled character by character.
That makes it possible to state exactly which inputs the outline parser lets
through, which led to the finding below.

Files: `wrappers.dfy` (Option, Result), `byte_encoder.dfy` (module
`ByteEncoding`), `css_border_style.dfy` (module `CssBorderStyle`),
`css_outline_style.dfy` (module `CssOutlineStyle`).

Two details of the locking and closing:
- `pushChunk` itself is not `synchronized`. When `flush()` calls it from inside
  the `synchronized` `close()`, it runs under the encoder's monitor. When a
  subclass's `push` calls it, whether the monitor is held depends on that
  subclass. Locking is not modelled, since the model runs on one thread.
- Closing the output stream calls `OutputStream.close()` (which does nothing)
  and then the encoder's `close()`.

## Model

| member | source | states |
|---|---|---|
| `ByteEncoding.ByteEncoder.constructor` | pump-data/src/main/java/com/pump/io/ByteEncoder.java:26-28 | a new encoder is open, its mailbox is empty and it has no listener |
| `ByteEncoding.ByteEncoder.SetListener` | pump-data/src/main/java/com/pump/io/ByteEncoder.java:35-37 | the given listener replaces the old one; nothing else changes |
| `ByteEncoding.ByteEncoder.GetDataListener` | pump-data/src/main/java/com/pump/io/ByteEncoder.java:262-264 | returns the listener currently in place and changes nothing |
| `ByteEncoding.ByteEncoder.Close` | pump-data/src/main/java/com/pump/io/ByteEncoder.java:47-56 | once closed, a second call changes nothing at all; the first call flushes the pending bytes as one chunk delivered to the listener while still open, then sets `closed`, then notifies the listener exactly once (if there is one); afterwards the encoder is closed with nothing pending |
| `ByteEncoding.ByteEncoder.Pull` | pump-data/src/main/java/com/pump/io/ByteEncoder.java:68-84 | returns the mailbox's chunk and empties the mailbox; on a closed encoder with an empty mailbox it returns `None` (null) |
| `ByteEncoding.ByteEncoder.PullImmediately` | pump-data/src/main/java/com/pump/io/ByteEncoder.java:117-123 | the mailbox is always empty afterwards; the result is the chunk if the mailbox was full, otherwise the empty chunk while open and `None` once closed |
| `ByteEncoding.ByteEncoder.PushChunk` | pump-data/src/main/java/com/pump/io/ByteEncoder.java:133-148 | stores the chunk in the empty mailbox and records it as emitted. With no listener the chunk stays in the mailbox. With the input listener the mailbox is emptied and a copy is queued if the chunk is non-empty. With the output listener the mailbox is emptied and the chunk's bytes are appended to the sink. `closed` and the listener do not change |
| `ByteEncoding.ByteEncoder.ChunkAvailable` | pump-data/src/main/java/com/pump/io/ByteEncoder.java:145 | the listener call after a chunk is stored: with no listener the mailbox, queue and sink are unchanged; the input adapter's listener empties the mailbox and queues the chunk if it is non-empty, with its cursor at 0; the output adapter's listener empties the mailbox and appends the chunk's bytes to the sink; the queue invariant is kept |
| `ByteEncoding.ByteEncoder.QueueChunk` | pump-data/src/main/java/com/pump/io/ByteEncoder.java:190-195 | the input adapter's listener: the mailbox is empty afterwards, and the queue gains a copy of the pulled chunk with its cursor at 0 exactly when the chunk is non-empty |
| `ByteEncoding.ByteEncoder.WriteToSink` | pump-data/src/main/java/com/pump/io/ByteEncoder.java:236-247 | the output adapter's listener: the mailbox is empty afterwards and the sink grows by exactly the chunk's bytes, in index order |
| `ByteEncoding.ByteEncoder.Push` | pump-data/src/main/java/com/pump/io/ByteEncoder.java:86-96 | refused, with nothing changed, once the encoder is closed; otherwise the accepted bytes (emitted chunks followed by pending bytes) grow by exactly this byte, and a full batch is delivered as one chunk |
| `ByteEncoding.ByteEncoder.Flush` | pump-data/src/main/java/com/pump/io/ByteEncoder.java:98-102 | leaves nothing pending and keeps the accepted bytes unchanged: the pending bytes, if any, are delivered as one last chunk |
| `ByteEncoding.ByteEncoder.CreateOutputStream` | pump-data/src/main/java/com/pump/io/ByteEncoder.java:235-260 | installs the listener that drains every chunk into the given sink |
| `ByteEncoding.ByteEncoder.WriteAll` | pump-data/src/main/java/com/pump/io/ByteEncoder.java:248-253 | `write(byte[])` on the output stream: on an open encoder every byte is pushed, the sink plus the pending bytes grow by exactly the data, and the sink grows by the chunks emitted on the way; on a closed encoder the first byte is refused and nothing changes; the input adapter's state is untouched |
| `ByteEncoding.ByteEncoder.WriteThenClose` | pump-data/src/main/java/com/pump/io/ByteEncoder.java:162-164 | the inner `try` block of `encode`: writes, then closes even after a refusal; on an open encoder the sink grows by the pending bytes then the data, which are exactly the chunks emitted during the call, and the listener is told once of the close |
| `ByteEncoding.ByteEncoder.Encode` | pump-data/src/main/java/com/pump/io/ByteEncoder.java:160-170 | on an open encoder it returns the pending bytes followed by the input, and that is exactly the concatenation, in order, of the chunks emitted during the call (by push and by the flush at close); the accepted bytes grow by the input; the sink holds exactly the result; on a closed encoder it refuses any byte and emits nothing, with the pending bytes unchanged; the encoder is closed afterwards, the input adapter's queue, source and counter are unchanged, and the listener is told of the close once, only if it was open |
| `ByteEncoding.ByteEncoder.PushSourceByte` | pump-data/src/main/java/com/pump/io/ByteEncoder.java:205-212 | one turn of the refill loop with a byte left in the source: the byte is taken from the source; on an open encoder it is pushed and counted, and the bytes still to serve are unchanged; on a closed encoder the push is refused and nothing is queued; a chunk queued by the push is recorded as the one chunk emitted |
| `ByteEncoding.ByteEncoder.QueueNext` | pump-data/src/main/java/com/pump/io/ByteEncoder.java:203-214 | with a non-empty queue it does nothing. Otherwise it pushes source bytes until the queue is non-empty, or until the source is used up and the encoder is closed. No byte is lost or reordered on the way. It fails only when it must push into an encoder that was already closed. It then emits nothing, and the source has lost exactly the one byte read before the refused push, which is not counted. The sink is unchanged, and the close-notice count grows by one exactly when this call closes the encoder. Without a new chunk the queue is unchanged; with one, the queue was empty and now holds exactly the bytes of the chunks emitted during the call |
| `ByteEncoding.ByteEncoder.CreateInputStream` | pump-data/src/main/java/com/pump/io/ByteEncoder.java:186-200 | installs the queueing listener and fills the queue from the source; on an open encoder this succeeds and the stream is ready to read, with the bytes still to serve being the pending bytes then the source. The sink is unchanged, the close-notice count grows by one exactly when this call closes the encoder, and the queue holds exactly the bytes of the chunks emitted during the call |
| `ByteEncoding.ByteEncoder.Read` | pump-data/src/main/java/com/pump/io/ByteEncoder.java:216-228 | end of stream exactly when the queue is empty, with nothing changed; otherwise the head chunk's byte at its cursor, which is the first of the bytes still to serve; afterwards the queue is non-empty or the source is done and the encoder closed; a ready stream stays ready. Without a new chunk the byte came off the front of the queue's unread bytes; a refill happens only after the last queued byte was served and leaves exactly the chunks it emitted in the queue. The sink is unchanged, and the close-notice count grows by one exactly when the refill closes the encoder |
| `ByteEncoding.AdvanceKeepsQueue` | pump-data/src/main/java/com/pump/io/ByteEncoder.java:221-224 | `Advance`, the step that moves the head cursor and drops the chunk once the cursor reaches its end, keeps every queued cursor inside its chunk; the queue keeps its length or loses exactly its head |
| `ByteEncoding.AdvanceServesHead` | pump-data/src/main/java/com/pump/io/ByteEncoder.java:221-224 | the same step, `Advance`, removes exactly the served byte, the head chunk's byte at its cursor, from the front of the unread bytes |
| `ByteEncoding.Enqueued` | pump-data/src/main/java/com/pump/io/ByteEncoder.java:177-193 | what the listener queues for a chunk keeps the queue invariant (only non-empty chunks, cursor 0) and its unread bytes are exactly the chunk |
| `ByteEncoding.ByteEncoder.ReadToEnd` | pump-data/src/main/java/com/pump/io/ByteEncoder.java:217-228 | calling `read` on a ready input adapter until it reports the end of the stream yields exactly the bytes it still had to serve, in order; afterwards the encoder is closed, the queue, the pending bytes and the source are empty, the sink is unchanged, and the listener was told of the close once, only if the encoder was open |
| `ByteEncoding.StreamRoundTrip` | pump-data/src/main/java/com/pump/io/ByteEncoder.java:172-228 | reading a fresh input adapter until end of stream returns exactly the source bytes in order, for every chunk size |
| `ByteEncoding.EncodeRoundTrip` | pump-data/src/main/java/com/pump/io/ByteEncoder.java:235-258 | `encode` on a fresh encoder returns its input unchanged, for every chunk size |
| `ByteEncoding.MailboxScenario` | pump-data/src/main/java/com/pump/io/ByteEncoder.java:105-123 | without a listener, bytes 1, 2, 3 come out one pull at a time; after close every non-waiting pull reports closed and a further push is refused |
| `CssBorderStyle.IsVisible` | src/main/java/com/pump/text/html/css/border/CssBorderStyleValue.java:12-17 | false exactly for `none` and `hidden`, true for the other eight keywords |
| `CssBorderStyle.ToUpperCase` | src/main/java/com/pump/text/html/css/border/CssBorderStyleValue.java:24 | `toUpperCase` keeps the length and maps each character on its own |
| `CssBorderStyle.ToLowerCase` | src/main/java/com/pump/text/html/css/border/CssBorderStyleValue.java:28 | `toLowerCase` keeps the length and maps each character on its own |
| `CssBorderStyle.ValueOf` | src/main/java/com/pump/text/html/css/border/CssBorderStyleValue.java:24 | `Value.valueOf` returns the constant whose name equals the text exactly; when no constant has that name it fails, with the text in the error |
| `CssBorderStyle.FromCssString` | src/main/java/com/pump/text/html/css/border/CssBorderStyleValue.java:23-25 | succeeds exactly when the upper-cased text is a constant's name; the result is that constant with its lower-cased name as CSS text; otherwise it fails with `IllegalArgumentException` |
| `CssBorderStyle.FromValue` | src/main/java/com/pump/text/html/css/border/CssBorderStyleValue.java:27-29 | holds the given constant, and its CSS text is all lower-case letters that upper-case back to the constant's name |
| `CssBorderStyle.Create` | src/main/java/com/pump/text/html/css/border/CssBorderStyleValue.java:31-36 | fails exactly when an argument is null, and otherwise stores both arguments unchanged |
| `CssBorderStyle.BorderStyleValue.GetValue` | src/main/java/com/pump/text/html/css/border/CssBorderStyleValue.java:38-40 | returns the stored constant |
| `CssBorderStyle.BorderStyleValue.ToCssString` | src/main/java/com/pump/text/html/css/border/CssBorderStyleValue.java:47-50 | returns the stored CSS text |
| `CssBorderStyle.BorderStyleValue.ToString` | src/main/java/com/pump/text/html/css/border/CssBorderStyleValue.java:42-45 | is the same as the CSS text |
| `CssOutlineStyle.Trim` | src/main/java/com/pump/text/html/css/border/CssOutlineStyleParser.java:29 | `trim` returns the slice of the text left when the white space (code units up to U+0020) at both ends is removed; the slice neither starts nor ends with white space |
| `CssBorderStyle.RoundTrip` | src/main/java/com/pump/text/html/css/border/CssBorderStyleValue.java:23-29 | for every constant, parsing the CSS text of the value built from it gives back the same value |
| `CssBorderStyle.SurroundingWhiteSpaceRejected` | src/main/java/com/pump/text/html/css/border/CssBorderStyleValue.java:23-25 | the string constructor does not trim: text that starts or ends with white space is always refused |
| `CssOutlineStyle.GetPropertyName` | src/main/java/com/pump/text/html/css/border/CssOutlineStyleParser.java:18-23 | always `outline-style` |
| `CssOutlineStyle.GetAttributeKey` | src/main/java/com/pump/text/html/css/CssPropertyParser.java:21-23 | the inherited default key, which is the property name `outline-style` |
| `CssOutlineStyle.Parse` | src/main/java/com/pump/text/html/css/border/CssOutlineStyleParser.java:26-38 | text that is `auto` once trimmed and lower-cased gives SOLID and keeps the original, untrimmed text. Text that is `hidden` the same way is refused. Any other text is parsed exactly as the border-style string constructor parses it, untrimmed |
| `CssOutlineStyle.ParseNeverHiddenOnAscii` | src/main/java/com/pump/text/html/css/border/CssOutlineStyleParser.java:33-37 | on ASCII text a successful parse never yields HIDDEN: any ASCII text that upper-cases to `HIDDEN` is caught by the `hidden` check |
| `CssOutlineStyle.ParseAcceptsDotlessHidden` | src/main/java/com/pump/text/html/css/border/CssOutlineStyleParser.java:33-37 | the parser as written accepts `hıdden` (dotless i) and returns HIDDEN |
| `CssOutlineStyle.ParseCorrected` | src/main/java/com/pump/text/html/css/border/CssOutlineStyleParser.java:26-38 | the parser with one more check: any text that upper-cases to `HIDDEN` is refused, all other text parses as before; it never yields HIDDEN, for any text |
| `CssOutlineStyle.CorrectedAgreesOnAscii` | src/main/java/com/pump/text/html/css/border/CssOutlineStyleParser.java:26-38 | on ASCII text the corrected parser and the parser as written give the same result |

## Findings

| source | as written | input that shows it | evidently intended | confidence | as-written member | corrected member |
|---|---|---|---|---|---|---|
| src/main/java/com/pump/text/html/css/border/CssOutlineStyleParser.java:33-37 | the `hidden` check compares `trim().toLowerCase()` with `"hidden"`, but the fallback parses `toUpperCase()`; the dotless i U+0131 upper-cases to `I` yet lower-cases to itself | `"hıdden"` passes the check and parses as HIDDEN | `parse` never yields HIDDEN, since `hidden` is not an outline style | not executed; depends on Java's case mapping of U+0131. Under a Turkish or Azeri default locale, plain ASCII `HIDDEN` gets through as well, because its lower-case form is `hıdden` | `CssOutlineStyle.ParseAcceptsDotlessHidden` | `CssOutlineStyle.ParseCorrected` |

## Left out

- Blocking and concurrency are not modelled. This covers the `wait`/`notify` loops, the `waiting` counter and the `synchronized` monitor. Where the source would wait, the model has a precondition instead:
  - `PushChunk` requires an empty mailbox;
  - `Pull` requires a full mailbox or a closed encoder;
  - `Push`, `Flush`, `Close`, `WriteAll`, `WriteThenClose`, `Encode` and `CreateInputStream` require whatever their calls to `PushChunk` need;
  - `Read`, `ReadToEnd`, `QueueNext` and `PushSourceByte` require the input adapter's listener to be in place with an empty mailbox.
- `push` and `flush` are abstract in the source; the model has one concrete encoding (fixed-size batches, the leftover emitted by `flush`) rather than every possible subclass.
- `encode(String)` and `encode(String, Charset)` are left out: they only wrap Java's charset encoding and decoding around `encode(byte[])`.
- Real `InputStream`/`OutputStream` objects and `ByteArrayOutputStream` are replaced by sequences of integers: the source is the bytes not yet read, the sink the bytes written.
- `IOException` from subclass hooks, sources and sinks is not modelled. Nothing in the model can fail that way.
- Java's sign extension of `byte` to `int` in `OutputStream.write(byte[])` is not modelled, and neither is the `(byte)` cast in `ByteArrayOutputStream`. Bytes are integers throughout, and for an encoding that passes values through unchanged the two conversions cancel.
- The adapters are not separate objects in the model:
  - they are fields of the encoder, so the model has at most one input and one output adapter per encoder;
  - a `Chunk`'s cursor is advanced by replacing the chunk value in the queue rather than by updating an object in place;
  - the array copy in `Chunk`'s constructor is implicit, because sequences are values.
- `read()`'s `-1` is the separate result `EndOfStream`. The usage error raised when the adapter pushes into an encoder that was closed from outside is the result `PushAfterClose`.
- The listeners' `encoderClosed` methods do nothing. The model only counts their calls, in a ghost field.
- The counter `ctr` of `EncodedInputStream` is kept, but nothing reads it.
- `CssBorderStyle.ToUpperCase`: models only the root-locale mappings whose result is an ASCII letter: `a`-`z`, U+0131 and U+017F. Java's other root-locale upper-case mappings are not modelled. The one-to-many ones that give ASCII letters (`ß` to `SS`, ligatures such as `ﬁ` to `FI` and `ﬅ` to `ST`) give letter pairs that no keyword's name contains.
- `CssBorderStyle.ToLowerCase`: models ASCII letters only. Java's other root-locale lower-case mappings (U+0130 to two characters, the Kelvin sign to `k`) cannot produce `auto` or `hidden`.
- `CssBorderStyle.ToLowerCase`, `CssBorderStyle.ToUpperCase`, `CssBorderStyle.FromValue`, `CssOutlineStyle.ParseNeverHiddenOnAscii` and `CssOutlineStyle.CorrectedAgreesOnAscii` fix a root or English default locale. Java's `toUpperCase()` and `toLowerCase()` without arguments use the JVM's default locale, and the model does not cover a Turkish or Azeri one. There, `"inset".toUpperCase()` is `"İNSET"`, so the string constructor refuses the four lower-case keywords that contain an `i`: `inset`, `ridge`, `solid` and `hidden`. The outline parser then refuses plain `inset`, `ridge` and `solid` as well. `FromValue` would give `ınset`, `rıdge`, `solıd` and `hıdden` as CSS text. And `"HIDDEN".trim().toLowerCase()` is `"hıdden"`, so ASCII `HIDDEN` passes the `hidden` check and parses as HIDDEN: there the two ASCII lemmas do not hold.
- User-supplied `DataListener`s (pump-data/src/main/java/com/pump/io/ByteEncoder.java:21-24, 35-37) are not modelled. The listener is one of three cases: none, the input adapter's or the output adapter's. An arbitrary listener could run any code, including calls back into the encoder.
- Null text passed to the string constructor or to `parse` (a `NullPointerException` in Java) is not modelled: text is never null in the model. Only the two-argument constructor takes optional arguments.
- The messages of the exceptions, the `CssValue` interface and `equals`/`hashCode` are not part of this model.
- `CssPropertyParser` is folded into `CssOutlineStyle.GetAttributeKey`.
- `AnimationController`, `RecessedButtonUI`, `BarChartPanel`, `ThrobberDemo` and `Demo` are not part of this model: they are Swing layout, painting and demo wiring.
- The tests `ImageTypeTests`, `FractionTest`, `CssBorderStyleParserTest` and `QHtmlTest` are not part of this model: their subjects are not among the modelled files.
