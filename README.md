# Cronet test utilities and license tooling, modelled in Dafny

This project models four small pieces of sequential logic from the Cronet-on-Android repository and proves properties of them:

- **The byte-buffer upload provider** (`UploadDataProviders.create`, `ByteBufferUploadProvider.getLength`, `read` and `rewind`). A provider uploads the bytes of one `java.nio.ByteBuffer`. Each `read` copies as many of the remaining bytes as fit into the caller's destination buffer. When the destination is smaller, the provider narrows its own buffer's limit for the copy and then restores it. `rewind` starts the upload again from the first byte. Buffers are modelled as a class with a fixed backing array and `position`/`limit` cursors. The sink's callbacks are recorded as a list of events. Module `UploadDataProviders`: `upload_data_providers.dfy`.
- **The license metadata mapper** (`Mapper.__init__`, `Mapper.write`, `MapperException`). This is a guarded overwrite of one field of a README metadata dictionary. Three expectation checks come first, then one assignment. The dictionary the caller passes is a class holding a `map`, and `Write` updates it in place. Module `LicenseMapper`: `license_mapper.dfy`.
- **The textproto-like rendering of a `MetadataDictionary`** (`__init__`, `_as_string`, `__repr__`). An ordered dictionary with a field name is rendered as a brace-delimited block, with one indented line per leaf and one nested block per nested dictionary. Module `MetadataDictionaries`: `metadata_dictionary.dfy`.
- **Public Transit's assertions** (`assertFinalDestination`, `assertCurrentStationType`, `raiseAssertion`, `stationListToString`). These are read-only checks over the station registry. A failure carries a message followed by a numbered listing of every registered station and its phase. Only the state they read is modelled: each station's identity (a Dafny object reference), runtime class and superclasses, and phase; each facility's phase; and the registry's active station and ordered list of stations. Module `TransitAsserts`: `transit_asserts.dfy`.

Shared helpers: `wrappers.dfy` (`Option`, `Outcome`) and `strings.dfy` (character counting).

Exceptions and assertion failures are returned values: `Outcome.Fail(...)` for Java's `IllegalStateException` and `AssertionError`, and `Fail(MapperException)` for the Python exception. A successful call returns `Pass`.

Where the two methods of the transit assertions have no `modifies` clause, Dafny's framing proves that they change nothing (the registry, the stations and the facilities stay as they were).

## Model

| member | source | states |
|---|---|---|
| `UploadDataProviders.Create` | android/tests/cts/src/android/net/http/cts/util/UploadDataProviders.java:42-44 | A new provider wraps a fresh buffer holding the given bytes, with position 0 and nothing delivered. Its length is the number of bytes. |
| `UploadDataProviders.ByteBuffer.Wrap` | android/tests/cts/src/android/net/http/cts/util/UploadDataProviders.java:43 | `ByteBuffer.wrap`: the backing array holds the bytes, position is 0 and limit is their count. |
| `UploadDataProviders.ByteBufferUploadProvider.constructor` | android/tests/cts/src/android/net/http/cts/util/UploadDataProviders.java:52-54 | The provider keeps the given buffer. The bytes to upload are those of the buffer up to its limit. |
| `UploadDataProviders.ByteBufferUploadProvider.GetLength` | android/tests/cts/src/android/net/http/cts/util/UploadDataProviders.java:56-59 | The length is the buffer's limit, which the provider's invariant keeps equal to the number of bytes to upload. |
| `UploadDataProviders.ByteBufferUploadProvider.Read` | android/tests/cts/src/android/net/http/cts/util/UploadDataProviders.java:61-75 | A destination with no bytes remaining is refused with the IllegalStateException message. On refusal neither buffer changes, nothing is recorded as sent and the sink gets no callback. Otherwise exactly min(dest.remaining, src.remaining) bytes are copied, namely the next bytes of the upload. They land at the destination's position, and every other destination byte and the destination's limit stay unchanged. Both positions advance by that count. The source limit, and so `getLength`, is as before. The sink receives exactly one `onReadSucceeded(false)`. |
| `UploadDataProviders.ByteBufferUploadProvider.CopyInto` | android/tests/cts/src/android/net/http/cts/util/UploadDataProviders.java:66-73 | Both ways of copying move min(dest.remaining, src.remaining) bytes: the whole `put` when `dest` has room, and the narrowed-limit `put` otherwise. The copied bytes are the source bytes from its old position, and they land at the destination's position. Both limits end as they were. |
| `UploadDataProviders.ByteBufferUploadProvider.Rewind` | android/tests/cts/src/android/net/http/cts/util/UploadDataProviders.java:77-81 | The source position becomes 0 and the limit (the length) stays as it was. The record of delivered bytes is empty again. The sink receives `onRewindSucceeded`. |
| `UploadDataProviders.ByteBuffer.Put` | android/tests/cts/src/android/net/http/cts/util/UploadDataProviders.java:66-71 | `put(src)` reports an overflow and changes nothing exactly when src has more bytes remaining than this buffer. Otherwise it writes src's remaining bytes in order at this buffer's position. It leaves the rest of the array alone and advances both positions. `CopyInto` proves that it never takes the overflow result. |
| `UploadDataProviders.ByteBuffer.SetLimit` | android/tests/cts/src/android/net/http/cts/util/UploadDataProviders.java:69-72 | `limit(n)` sets the limit. A position beyond the new limit is pulled back to it. |
| `UploadDataProviders.ByteBuffer.SetPosition` | android/tests/cts/src/android/net/http/cts/util/UploadDataProviders.java:79 | `position(n)` sets the position and keeps the limit. |
| `UploadDataProviders.Chunk` | android/tests/cts/src/android/net/http/cts/util/UploadDataProviders.java:66-73 | What one read delivers: a consecutive slice of the upload starting at the current position. It is never longer than the destination's room. It fills that room unless the upload ends first. |
| `UploadDataProviders.Overwrite` | android/tests/cts/src/android/net/http/cts/util/UploadDataProviders.java:67-71 | The destination after a copy keeps its length and its bytes before and after the written window, and holds the copied bytes inside the window. |
| `UploadDataProviders.DeliveriesAreNextBytes` | android/tests/cts/src/android/net/http/cts/util/UploadDataProviders.java:61-75 | Successive reads from a position deliver, concatenated, exactly the next bytes of the upload. Their number is the destinations' total room, capped at what is left, with nothing skipped or repeated. |
| `UploadDataProviders.ReplayAfterRewind` | android/tests/cts/src/android/net/http/cts/util/UploadDataProviders.java:77-81 | After a rewind, reads whose destinations have room for the whole upload in total re-deliver the upload exactly. |
| `UploadDataProviders.ReadEach` | android/tests/cts/src/android/net/http/cts/util/UploadDataProviders.java:61-75 | A run of `read` calls into fresh destinations appends exactly `Deliveries` from the current position to what was sent. The provider's invariant holds afterwards. |
| `UploadDataProviders.ReadAllAfterRewind` | android/tests/cts/src/android/net/http/cts/util/UploadDataProviders.java:61-81 | A `rewind` followed by one `read` per destination sends exactly the bytes the successive reads deliver. When the destinations have room for the whole upload in total, that is the whole upload. The provider's invariant holds throughout. |
| `LicenseMapper.Mapper.Check` | android/tools/license/mapper.py:38-54 | The guards of `write`. For an absent key the write may proceed exactly when the expected value is falsy (`None`, `""` or `[]`). For a present key it may proceed exactly when the expected value is not `None` and equals the current value. A failure names the first check that fails, in source order: expected absence, expected presence, mismatch. |
| `LicenseMapper.Mapper.Written` | android/tools/license/mapper.py:38-56 | After a refused write the fields are unchanged. After an accepted write `key` holds the write value, the key set gains at most `key`, and every other key keeps its value. |
| `LicenseMapper.Mapper.Write` | android/tools/license/mapper.py:24-56 | It raises exactly the exception `Check` names, and then the caller's dictionary is untouched, because all checks precede the single write. Otherwise it returns normally and the dictionary is updated in place as `Written` says. |
| `LicenseMapper.AbsentKeyIsCreated` | android/tools/license/mapper.py:38-56 | Expecting `None` for an absent key passes, and the key is created with the write value. |
| `LicenseMapper.FalsyExpectationCreatesAbsentKey` | android/tools/license/mapper.py:44-56 | A falsy expectation that is not `None` (`""` or `[]`) does not raise for an absent key, and the key is created. |
| `LicenseMapper.SecondWriteSucceedsIff` | android/tools/license/mapper.py:38-56 | After a successful write, applying the same mapper again succeeds exactly when its expected value is not `None` and equals its write value. |
| `LicenseMapper.Message` | android/tools/license/mapper.py:40-54 | The message of each exception, as the source builds it. Expected absence names the key in backquotes and then what was found. Expected presence names the key and ends in " wasnot found.", with the missing space. A mismatch quotes the expected value and ends in " in the README.chromium". |
| `LicenseMapper.CorrectedMessage` | android/tools/license/mapper.py:46-47 | The messages with the missing space restored. The expected-presence message ends in " was not found.", and every other message is the one the source builds. |
| `LicenseMapper.PresenceMessageAsWrittenRunsWordsTogether` | android/tools/license/mapper.py:46-47 | The missing-key message as written ends in " wasnot found." and not in " was not found.". |
| `LicenseMapper.PresenceMessageSeparatesWords` | android/tools/license/mapper.py:46-47 | The corrected missing-key message ends in " was not found.". |
| `MetadataDictionaries.New` | android/tools/license/metadata_dictionary.py:10-12 | A new dictionary has the given field name and no entries. Its `repr` is `field_name {` followed by a line holding only `}`. |
| `MetadataDictionaries.AsString` | android/tools/license/metadata_dictionary.py:14-23 | The loop builds the rendering. It starts with `field_name + " {\n"` with no indentation at that level, and ends with `width*(depth-1)` spaces and `"}\n"`. |
| `MetadataDictionaries.EntryString` | android/tools/license/metadata_dictionary.py:16-21 | A leaf gives one line: `width*depth` spaces, key, `": "`, the value's text and a newline. A nested dictionary gives `width*depth` spaces and then its own block one level deeper, headed by its own field name rather than the key it is stored under. |
| `MetadataDictionaries.Repr` | android/tools/license/metadata_dictionary.py:25-26 | `repr` renders at width 2, depth 1. The text ends with a newline followed by an unindented `}` line. |
| `MetadataDictionaries.EntriesTextAppend` | android/tools/license/metadata_dictionary.py:16 | Rendering follows iteration order: the text for entries `a + b` is the text for `a` followed by the text for `b`. |
| `MetadataDictionaries.RenderedOccurrences` | android/tools/license/metadata_dictionary.py:15-22 | Take a brace or newline that no name, key or leaf text contains. Each dictionary at any depth adds its occurrences in ` {\n` and `}\n`, and each leaf adds one newline. |
| `MetadataDictionaries.BracesBalance` | android/tools/license/metadata_dictionary.py:15-22 | With no braces or newlines in names, keys and leaf texts, the counts of `{` and `}` are equal, and both are 1 plus the number of nested dictionaries. There are two lines per dictionary and one per leaf. |
| `TransitAsserts.AssertFinalDestination` | base/test/android/javatests/src/org/chromium/base/test/transit/TransitAsserts.java:27-53 | Passes exactly when three things hold: the active station is the expected instance (reference identity), that station is ACTIVE, and every listed facility is ACTIVE. Otherwise it fails with the message of the first violated check: wrong destination, then inactive station, then the first inactive facility. The message is followed by the station listing. |
| `TransitAsserts.AssertCurrentStationType` | base/test/android/javatests/src/org/chromium/base/test/transit/TransitAsserts.java:62-75 | Fails exactly when there is no active station and null is not allowed, or when the active station is not an instance of the type. With no active station and null allowed it passes for every type. A failure carries the type message and the listing. |
| `TransitAsserts.RaiseAssertion` | base/test/android/javatests/src/org/chromium/base/test/transit/TransitAsserts.java:77-80 | Always fails. The failure text is the message, a newline, and the listing of all registered stations. |
| `TransitAsserts.StationListToString` | base/test/android/javatests/src/org/chromium/base/test/transit/TransitAsserts.java:82-93 | The builder loop with its counter produces the line-per-station listing numbered from 1. |
| `TransitAsserts.DecimalString` | base/test/android/javatests/src/org/chromium/base/test/transit/TransitAsserts.java:88-89 | `%d` of the station counter: a non-empty string of decimal digits, with no leading zero, that denotes the number. |
| `TransitAsserts.StationListedAt` | base/test/android/javatests/src/org/chromium/base/test/transit/TransitAsserts.java:84-91 | The k-th registered station (counting from 0) appears in registry order on the line `"  [k+1] (shortPhase) station\n"`, between the lines of the stations before and after it. |
| `TransitAsserts.StationLinesAppend` | base/test/android/javatests/src/org/chromium/base/test/transit/TransitAsserts.java:82-93 | The listing of `a + b` is that of `a` followed by that of `b`, with numbering continuing where `a` stopped. |
| `TransitAsserts.StationLinesCount` | base/test/android/javatests/src/org/chromium/base/test/transit/TransitAsserts.java:86-89 | When no description or short phase name contains a newline, the listing has exactly one line per station. |
| `TransitAsserts.SameTypeIsNotSameInstance` | base/test/android/javatests/src/org/chromium/base/test/transit/TransitAsserts.java:19-21 | If the active station is a different instance of the original station's class, the type check passes and the final-destination check for the original fails. |

## Left out

- `ByteBufferUploadProvider.close` and `blockForClose`: they signal and wait on a condition variable with a 12-second timeout, which is concurrency and time.
- `UploadDataProviders.create`: the UTF-8 encoding of the Java string is not modelled. `Create` takes the encoded bytes.
- `UploadDataSink`: only the callbacks it receives are modelled, as a list of events. What Cronet does with them is not part of this model.
- `ByteBuffer`: only the parts the provider uses are modelled (backing array, position, limit, `wrap`, `limit(n)`, `position(n)`, `put(ByteBuffer)`). Mark, read-only and direct buffers, offsets into a shared array, and the argument exceptions of `limit(n)` and `position(n)` are left out, because the provider never triggers them.
- `UploadDataProviders.ByteBufferUploadProvider.Read`: requires that the destination is neither the provider's own buffer nor backed by its array. That buffer is private, so Cronet cannot pass it.
- `UploadDataProviders.ByteBufferUploadProvider.constructor`: requires a buffer at position 0. Its only caller, `create`, passes a freshly wrapped buffer.
- `LicenseMapper.Mapper.Check`: metadata values are strings or lists of strings, as the source's type annotation says. Other Python values are not modelled.
- `LicenseMapper.Message`: Python's `str()` of a value is a parameter (`show`). The contract describes the fixed text around each interpolated value, not the interpolated text itself. The expected-presence message is the source's text with the missing space, and `CorrectedMessage` is the version with the space.
- `MetadataDictionaries.AsString`: leaf values are kept as their `str()` text. Python dictionary operations other than iteration in insertion order (item assignment, key uniqueness) are not part of this model. The entries are any ordered sequence.
- `MetadataDictionaries.EntryString`: Python's loop body is inline. Here it is a separate method, so that the mutual recursion through nested dictionaries can be shown to terminate.
- `TransitAsserts`: `TrafficControl`, `Trip`, `ConditionalState`, `TransitStation` and `StationFacility` are not part of this model beyond the state these checks read. No phase transitions are modelled.
- `TransitAsserts.PhaseNames`: `phaseToString` and `phaseToShortString` are parameters, because their definitions are not part of this model. Station and facility `toString()` results are fixed description strings. A `Class` prints as `"class " + name`.
- `TransitAsserts.RaiseAssertion`: Java's `assert` is taken as enabled, so it always fails. With assertions disabled it would do nothing and the checks would go on.
- `TransitAsserts.AssertFinalDestination`: Java's varargs may hold a null facility, and line 45 then throws a NullPointerException. Facilities here are never null, so that case is not modelled.
- `TransitAsserts.AssertFinalDestination`: the expected station is non-null. With a null expected station and no active station, Java would throw a NullPointerException at `getPhase()`.
- `TransitAsserts.DecimalString`: `%d` is rendered with ASCII digits. Locale-specific digits are not modelled.
- The Kotlin end-to-end tests, the traffic-statistics test, the URL-request wrapper and the Android.bp generator test need network I/O, threads, OS counters or code that is not part of this model.

## Findings

| source | as written | input that shows it | evidently intended | confidence | as-written member | corrected member |
|---|---|---|---|---|---|---|
| android/tools/license/mapper.py:46-47 | The two f-string literals `"... but was"` and `"not found."` are joined with no space between them. | Any mapper with a truthy expected value writing to metadata without its key, e.g. key `License`. The message is `Expected presence of key License but wasnot found.` | `... but was not found.` | high; not executed | `LicenseMapper.Message` | `LicenseMapper.CorrectedMessage` |
