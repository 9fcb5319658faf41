# Maritime cloud client: closing codes, grid cells, broadcast channels, client configuration

A Dafny model of four small sequential pieces of the e-Navigation maritime
cloud client (Java):

- `ClosingCode` (`closing_code.dfy`, module `ClosingCodes`): the immutable
  (status id, message) pairs that say why a connection closed, the five
  catalogued codes, the reconnect advice (always "no"), `withMessage` and the
  unchecked `create` factory.
- `Cell` (`cell.dfy`, module `Grid`): a grid-cell key over a 64-bit id, with
  the `int` narrowing of `getCellId`, the wrapping subtraction of `compareTo`,
  the 64-bit `equals` and `Long.hashCode`. The model proves the quirks of this
  order: it is descending, it is inconsistent with `equals`, and antisymmetry
  and transitivity fail on overflow.
- `BroadcastMessage` channel resolution (`broadcast_message.dfy`, module
  `Broadcast`): the fixed-order validation of a message type's
  `CHANNEL` field, `findChannelForMessageType`, `channel()` and the
  `findClass` search over the loaded message types, reproduced with its
  literal-string slips.
- `MaritimeCloudClientConfiguration` (`client_configuration.dfy`, module
  `ClientConfiguration`): a class with the builder's fields, their defaults,
  the `create` overloads, `addListener`, the getters and setters, and the
  identity assignment of `build(MaritimeId)`.

`java.dfy` (module `Java`) holds the Java platform facts the model relies on:
the `int`/`long` ranges, the narrowing conversion `(int)`, division that
truncates toward zero, `Objects.requireNonNull`, `null` as `Option.None` and
thrown exceptions as `Result.Failure`. `time_unit.dfy` (module `TimeUnits`)
models `java.util.concurrent.TimeUnit` as a scale factor per unit, with the
saturating `toNanos` and the truncating `convert` from nanoseconds.

Java integers are modelled as `int` subset types (`Int32`, `Int64`) with the
wrap-around written out (`IntCast`); `Long.hashCode` is the exclusive or of
the id's low and high 32-bit words, with the exclusive or defined bit by bit
on natural numbers (`Grid.Xor`). Identities, listeners, broadcast options and position suppliers are
opaque values told apart by a handle. The getters `GetHost`, `GetId`,
`GetListeners`, `GetPositionSupplier`, `GetDefaultBroadcastOptions` and
`IsAutoConnect` read their field
(enav-maritimecloud/src/main/java/dk/dma/enav/maritimecloud/MaritimeCloudClientConfiguration.java:120-162);
the setter contracts state what they then return.

Three behaviours of the code are modelled as written, although a reader
might expect otherwise: `channel()` answers the class's canonical name, not
the value of its `CHANNEL` field
(enav-maritimecloud/src/main/java/dk/dma/enav/maritimecloud/broadcast/BroadcastMessage.java:45-47);
`create(id, message)` accepts any id, not only catalogued ones
(enav-maritimecloud/src/main/java/dk/dma/enav/maritimecloud/ClosingCode.java:99-101);
and the configuration is mutable, with `setKeepAlive` accepting any `long`,
negative ones included
(enav-maritimecloud/src/main/java/dk/dma/enav/maritimecloud/MaritimeCloudClientConfiguration.java:191-194).

## Model

| member | source | states |
|---|---|---|
| `Java.IntCast` | enav-model/src/main/java/dk/dma/enav/model/geometry/grid/Cell.java:29-31 | the narrowed value is an `int` congruent to the input modulo 2^32, and equals the input when the input already fits |
| `Java.TruncDiv` | enav-maritimecloud/src/main/java/dk/dma/enav/maritimecloud/MaritimeCloudClientConfiguration.java:138-140 | the quotient is truncated toward zero: it has the dividend's sign and its multiple of the divisor lies within one divisor of the dividend, on the zero side |
| `Java.TruncDivOfMultiple` | enav-maritimecloud/src/main/java/dk/dma/enav/maritimecloud/MaritimeCloudClientConfiguration.java:138-140 | dividing a multiple of a positive divisor by that divisor, truncating toward zero, gives back the other factor |
| `Java.RequireNonNull` | enav-maritimecloud/src/main/java/dk/dma/enav/maritimecloud/MaritimeCloudClientConfiguration.java:71-74 | a non-null argument is returned unchanged; null throws a `NullPointerException` carrying the given message |
| `TimeUnits.Scale` | enav-maritimecloud/src/main/java/dk/dma/enav/maritimecloud/MaritimeCloudClientConfiguration.java:191-194 | every unit is a positive whole number of nanoseconds, 1 exactly for `NANOSECONDS` |
| `TimeUnits.ToNanos` | enav-maritimecloud/src/main/java/dk/dma/enav/maritimecloud/MaritimeCloudClientConfiguration.java:191-194 | the JDK's overflow test against `Long.MAX_VALUE / scale` gives exactly the product clamped to the `long` range |
| `TimeUnits.FromNanos` | enav-maritimecloud/src/main/java/dk/dma/enav/maritimecloud/MaritimeCloudClientConfiguration.java:138-140 | converting nanoseconds to a unit yields the number of whole units, truncated toward zero |
| `TimeUnits.FromNanosToNanos` | enav-maritimecloud/src/main/java/dk/dma/enav/maritimecloud/MaritimeCloudClientConfiguration.java:191-194 | when `time * scale` fits in a `long`, storing as nanoseconds and reading back in the same unit gives `time` |
| `TimeUnits.ToNanosSaturates` | enav-maritimecloud/src/main/java/dk/dma/enav/maritimecloud/MaritimeCloudClientConfiguration.java:191-194 | a too large (too small) duration is stored as `Long.MAX_VALUE` (`Long.MIN_VALUE`) |
| `ClosingCodes.Catalogue` | enav-maritimecloud/src/main/java/dk/dma/enav/maritimecloud/ClosingCode.java:31-50 | the catalogue has five codes with pairwise distinct ids |
| `ClosingCodes.CatalogueContents` | enav-maritimecloud/src/main/java/dk/dma/enav/maritimecloud/ClosingCode.java:31-50 | the catalogue is exactly (1000, "Normal closure"), (1003, "Bad data"), (4012, "Duplicate connect"), (4100, "Wrong msgtype"), (4101, "Connect Cancelled") in that order |
| `ClosingCodes.CatalogueIdRanges` | enav-maritimecloud/src/main/java/dk/dma/enav/maritimecloud/ClosingCode.java:31-50 | 1000 and 1003 are close codes defined in section 7.4.1 of RFC 6455; 4012, 4100 and 4101 lie in the private-use range 4000-4999 of section 7.4.2 and are not RFC-defined |
| `ClosingCodes.GetId` | enav-maritimecloud/src/main/java/dk/dma/enav/maritimecloud/ClosingCode.java:58-70 | the id returned, together with the stored message, rebuilds the code: it is the id given at construction |
| `ClosingCodes.GetMessage` | enav-maritimecloud/src/main/java/dk/dma/enav/maritimecloud/ClosingCode.java:72-79 | the message returned, together with the stored id, rebuilds the code: it is the message given at construction, null included |
| `ClosingCodes.IsReconnectable` | enav-maritimecloud/src/main/java/dk/dma/enav/maritimecloud/ClosingCode.java:81-86 | the answer is false for every code, including id 1000 |
| `ClosingCodes.NothingIsReconnectable` | enav-maritimecloud/src/main/java/dk/dma/enav/maritimecloud/ClosingCode.java:81-86 | no code at all, and no catalogued code, advises reconnecting |
| `ClosingCodes.WithMessage` | enav-maritimecloud/src/main/java/dk/dma/enav/maritimecloud/ClosingCode.java:95-97 | the new code keeps the receiver's id and carries the given message; the receiver, a value, is unchanged |
| `ClosingCodes.WithMessageLastWriteWins` | enav-maritimecloud/src/main/java/dk/dma/enav/maritimecloud/ClosingCode.java:95-97 | `c.withMessage(a).withMessage(b)` has the same fields as `c.withMessage(b)`, and the id survives |
| `ClosingCodes.WithOwnMessage` | enav-maritimecloud/src/main/java/dk/dma/enav/maritimecloud/ClosingCode.java:95-101 | re-attaching a code's own message, or re-creating it from its own id and message, gives an equal code |
| `ClosingCodes.Create` | enav-maritimecloud/src/main/java/dk/dma/enav/maritimecloud/ClosingCode.java:99-101 | any `int` id and any message, null included, are stored and read back unchanged |
| `Grid.CellId` | enav-model/src/main/java/dk/dma/enav/model/geometry/grid/Cell.java:29-31 | the cell id is the `int` congruent to the 64-bit id modulo 2^32 (its low 32 bits read as signed), and equals the id when the id fits in an `int` |
| `Grid.CompareTo` | enav-model/src/main/java/dk/dma/enav/model/geometry/grid/Cell.java:35-37 | the result is `o.getCellId() - getCellId()` reduced into the `int` range modulo 2^32, and is that difference itself when it fits |
| `Grid.CompareToSelf` | enav-model/src/main/java/dk/dma/enav/model/geometry/grid/Cell.java:35-37 | every cell compares 0 with itself |
| `Grid.CompareToIsDescending` | enav-model/src/main/java/dk/dma/enav/model/geometry/grid/Cell.java:35-37 | without overflow the result is negative exactly when the receiver's cell id is larger, positive exactly when it is smaller |
| `Grid.CompareToAntisymmetricWithoutOverflow` | enav-model/src/main/java/dk/dma/enav/model/geometry/grid/Cell.java:35-37 | when neither subtraction overflows, `a.compareTo(b)` and `b.compareTo(a)` have opposite signs |
| `Grid.CompareToZeroIffSameLowBits` | enav-model/src/main/java/dk/dma/enav/model/geometry/grid/Cell.java:29-37 | `compareTo` answers 0 if and only if the two ids agree in their low 32 bits |
| `Grid.CompareToInconsistentWithEquals` | enav-model/src/main/java/dk/dma/enav/model/geometry/grid/Cell.java:29-47 | cells 0 and 2^32 compare 0 yet are not equal |
| `Grid.CompareToAntisymmetryFails` | enav-model/src/main/java/dk/dma/enav/model/geometry/grid/Cell.java:35-37 | for cell ids 0 and `Integer.MIN_VALUE` both comparisons are negative |
| `Grid.CompareToTransitivityFails` | enav-model/src/main/java/dk/dma/enav/model/geometry/grid/Cell.java:35-37 | for ids 2^30+1, 0 and -2^30 the first sorts before the second and the second before the third, yet the third sorts before the first |
| `Grid.Equals` | enav-model/src/main/java/dk/dma/enav/model/geometry/grid/Cell.java:44-47 | two cells are equal exactly when their full 64-bit ids are |
| `Grid.EqualsObject` | enav-model/src/main/java/dk/dma/enav/model/geometry/grid/Cell.java:44-47 | only a cell argument yields an answer, true exactly for the same 64-bit id; null throws on the field read and any other object fails the cast |
| `Grid.HashCode` | enav-model/src/main/java/dk/dma/enav/model/geometry/grid/Cell.java:39-42 | a cell whose id is a non-negative 32-bit word hashes to its cell id; a negative id down to -2^32 hashes to the complement `~getCellId()` |
| `Grid.LongHashCodeOfSmall` | enav-model/src/main/java/dk/dma/enav/model/geometry/grid/Cell.java:39-42 | `Long.hashCode` of a `long` whose high word is zero is the `int` narrowing of it, and of one whose high word is all ones the complement of that narrowing |
| `Grid.XorOnes` | enav-model/src/main/java/dk/dma/enav/model/geometry/grid/Cell.java:39-42 | the exclusive or with a word of `n` one bits is the complement within that word |
| `Grid.HashCodeExamples` | enav-model/src/main/java/dk/dma/enav/model/geometry/grid/Cell.java:39-42 | ids 5, -1 and `0xFFFF_FFFF` hash to 5, 0 and -1 |
| `Grid.EqualsIsEquivalence` | enav-model/src/main/java/dk/dma/enav/model/geometry/grid/Cell.java:44-47 | `equals` is reflexive, symmetric and transitive |
| `Grid.EqualCellsAgree` | enav-model/src/main/java/dk/dma/enav/model/geometry/grid/Cell.java:39-47 | equal cells compare 0 both ways and have equal `Long.hashCode` hashes |
| `Grid.CompareToIntended` | enav-model/src/main/java/dk/dma/enav/model/geometry/grid/Cell.java:35-37 | the overflow-free descending order: negative exactly when the receiver's cell id is larger, positive exactly when smaller |
| `Grid.CompareToIntendedAgrees` | enav-model/src/main/java/dk/dma/enav/model/geometry/grid/Cell.java:35-37 | wherever the subtraction does not overflow, the intended order has the sign `compareTo` has |
| `Grid.CompareToIntendedMeetsComparable` | enav-model/src/main/java/dk/dma/enav/model/geometry/grid/Cell.java:35-37 | the intended order is sign-antisymmetric and transitive, and ties compare alike, on all cells |
| `Broadcast.ChannelError.Message` | enav-maritimecloud/src/main/java/dk/dma/enav/maritimecloud/broadcast/BroadcastMessage.java:78-96 | the "No field named CHANNEL" message ends with the type's canonical name, and the four check messages start with "Field named CHANNEL on " followed by it |
| `Broadcast.MessagesDistinct` | enav-maritimecloud/src/main/java/dk/dma/enav/maritimecloud/broadcast/BroadcastMessage.java:78-96 | two different errors about the same type never carry the same message |
| `Broadcast.GetField` | enav-maritimecloud/src/main/java/dk/dma/enav/maritimecloud/broadcast/BroadcastMessage.java:76-80 | reflection finds a `CHANNEL` field exactly when the type declares a public one or inherits one; the one found is public, and the type's own public field takes precedence over an inherited one |
| `Broadcast.GetChannelField` | enav-maritimecloud/src/main/java/dk/dma/enav/maritimecloud/broadcast/BroadcastMessage.java:74-98 | succeeds iff the field found is final, static, public, a String and readable, returning its value; each error is raised exactly when every earlier check in the order missing, final, static, String, readable holds and its own fails; "must be public" is never raised |
| `Broadcast.NonPublicFieldIsMissing` | enav-maritimecloud/src/main/java/dk/dma/enav/maritimecloud/broadcast/BroadcastMessage.java:76-86 | a type's own non-public `CHANNEL` field is reported as "No field named CHANNEL" when nothing public is inherited, and otherwise the inherited field is the one checked |
| `Broadcast.OwnPublicFieldHides` | enav-maritimecloud/src/main/java/dk/dma/enav/maritimecloud/broadcast/BroadcastMessage.java:76-80 | a public `CHANNEL` field the type declares itself decides the outcome, whatever it inherits |
| `Broadcast.FindChannelForMessageType` | enav-maritimecloud/src/main/java/dk/dma/enav/maritimecloud/broadcast/BroadcastMessage.java:68-72 | returns exactly the value, or the error, of `getChannelField` |
| `Broadcast.Channel` | enav-maritimecloud/src/main/java/dk/dma/enav/maritimecloud/broadcast/BroadcastMessage.java:45-47 | the channel is the type's canonical name |
| `Broadcast.ChannelIgnoresChannelField` | enav-maritimecloud/src/main/java/dk/dma/enav/maritimecloud/broadcast/BroadcastMessage.java:45-47 | changing the `CHANNEL` field does not change `channel()`, and a well-formed type declaring "position" sends on its class name instead |
| `Broadcast.Search` | enav-maritimecloud/src/main/java/dk/dma/enav/maritimecloud/broadcast/BroadcastMessage.java:60-66 | a type found is one of the loaded types and declares the sought channel; a validation error reported belongs to a loaded type |
| `Broadcast.SearchNone` | enav-maritimecloud/src/main/java/dk/dma/enav/maritimecloud/broadcast/BroadcastMessage.java:60-66 | when every loaded type is valid, non-null and not a match, the search returns null and throws nothing |
| `Broadcast.SearchStopsAtFirst` | enav-maritimecloud/src/main/java/dk/dma/enav/maritimecloud/broadcast/BroadcastMessage.java:60-66 | the search answers for the first loaded type that does not pass: that type on a match, its validation error if invalid, a `NullPointerException` if its channel is null |
| `Broadcast.FindClass` | enav-maritimecloud/src/main/java/dk/dma/enav/maritimecloud/broadcast/BroadcastMessage.java:58-66 | the loop returns the search for the literal "channel", whatever the argument (null included) |
| `Broadcast.FindClassLiteralCounterexample` | enav-maritimecloud/src/main/java/dk/dma/enav/maritimecloud/broadcast/BroadcastMessage.java:59-61 | a type declaring "ais.position" is not found by `findClass`, but is by the intended search; `findClass(null)` does not throw, the intended search does |
| `Broadcast.FindClassIntended` | enav-maritimecloud/src/main/java/dk/dma/enav/maritimecloud/broadcast/BroadcastMessage.java:58-66 | a null channel throws "channel is null"; a type found is loaded and declares exactly the requested channel |
| `Broadcast.FindClassIntendedFinds` | enav-maritimecloud/src/main/java/dk/dma/enav/maritimecloud/broadcast/BroadcastMessage.java:58-66 | the first loaded type declaring the requested channel is found when every type before it is valid |
| `ClientConfiguration.DefaultKeepAlive` | enav-maritimecloud/src/main/java/dk/dma/enav/maritimecloud/MaritimeCloudClientConfiguration.java:46 | the default keep-alive is 2,000,000,000 ns, read as 2000 ms, 2 s and 0 min |
| `ClientConfiguration.Configuration.constructor` | enav-maritimecloud/src/main/java/dk/dma/enav/maritimecloud/MaritimeCloudClientConfiguration.java:40-60 | a new configuration auto-connects, keeps alive for 2 s, uses host "localhost:43234", has no listeners, the initial options and the zero-position supplier, and the given identity |
| `ClientConfiguration.Configuration.Create` | enav-maritimecloud/src/main/java/dk/dma/enav/maritimecloud/MaritimeCloudClientConfiguration.java:201-203 | a fresh default configuration with a null identity |
| `ClientConfiguration.Configuration.CreateWithId` | enav-maritimecloud/src/main/java/dk/dma/enav/maritimecloud/MaritimeCloudClientConfiguration.java:205-207 | a fresh default configuration with the given identity |
| `ClientConfiguration.Configuration.CreateFromString` | enav-maritimecloud/src/main/java/dk/dma/enav/maritimecloud/MaritimeCloudClientConfiguration.java:209-211 | a fresh default configuration with the identity parsed from the string |
| `ClientConfiguration.Configuration.AddListener` | enav-maritimecloud/src/main/java/dk/dma/enav/maritimecloud/MaritimeCloudClientConfiguration.java:71-74 | appends the listener after the earlier ones (duplicates allowed) and returns the same object; null throws "listener is null" and leaves the list unchanged; no other field changes |
| `ClientConfiguration.Configuration.Build` | enav-maritimecloud/src/main/java/dk/dma/enav/maritimecloud/MaritimeCloudClientConfiguration.java:112-115 | the stored identity is overwritten with the given one (null included) and nothing else changes |
| `ClientConfiguration.Configuration.GetKeepAlive` | enav-maritimecloud/src/main/java/dk/dma/enav/maritimecloud/MaritimeCloudClientConfiguration.java:138-140 | the stored nanoseconds in the requested unit, truncated toward zero |
| `ClientConfiguration.Configuration.SetAutoConnect` | enav-maritimecloud/src/main/java/dk/dma/enav/maritimecloud/MaritimeCloudClientConfiguration.java:168-170 | sets only the auto-connect flag and returns nothing |
| `ClientConfiguration.Configuration.SetDefaultBroadcastOptions` | enav-maritimecloud/src/main/java/dk/dma/enav/maritimecloud/MaritimeCloudClientConfiguration.java:176-179 | stores non-null options and returns the same object; null throws and changes nothing |
| `ClientConfiguration.Configuration.SetHost` | enav-maritimecloud/src/main/java/dk/dma/enav/maritimecloud/MaritimeCloudClientConfiguration.java:181-184 | stores a non-null host and returns the same object; null throws and changes nothing |
| `ClientConfiguration.Configuration.SetId` | enav-maritimecloud/src/main/java/dk/dma/enav/maritimecloud/MaritimeCloudClientConfiguration.java:186-189 | stores the identity, null accepted, and returns the same object |
| `ClientConfiguration.Configuration.SetKeepAlive` | enav-maritimecloud/src/main/java/dk/dma/enav/maritimecloud/MaritimeCloudClientConfiguration.java:191-194 | stores `unit.toNanos(time)` and returns the same object; reading back in `unit` gives `time` when the nanoseconds fit in a `long`, otherwise the stored value is `Long.MAX_VALUE` or `Long.MIN_VALUE` |
| `ClientConfiguration.Configuration.SetPositionSupplier` | enav-maritimecloud/src/main/java/dk/dma/enav/maritimecloud/MaritimeCloudClientConfiguration.java:196-199 | stores a non-null supplier and returns the same object; null throws and changes nothing |

Each setter's `modifies` clause names its own field only, so every other
field is unchanged by it.

## Findings

| source | as written | input that shows it | evidently intended | confidence | as-written member | corrected member |
|---|---|---|---|---|---|---|
| enav-maritimecloud/src/main/java/dk/dma/enav/maritimecloud/broadcast/BroadcastMessage.java:59 | `requireNonNull` is applied to the message literal, so a null channel is never rejected | `findClass(null)` with no loaded types returns null instead of throwing | `requireNonNull(channel, "channel is null")` | high, not executed | `Broadcast.FindClass`, `Broadcast.FindClassLiteralCounterexample` | `Broadcast.FindClassIntended`, `Broadcast.FindClassIntendedFinds` |
| enav-maritimecloud/src/main/java/dk/dma/enav/maritimecloud/broadcast/BroadcastMessage.java:61 | the loaded type's channel is compared with the literal `"channel"`, so the argument is ignored | one loaded type declaring "ais.position": `findClass("ais.position")` returns null | compare with the `channel` argument | high, not executed | `Broadcast.FindClass`, `Broadcast.FindClassLiteralCounterexample` | `Broadcast.FindClassIntended`, `Broadcast.FindClassIntendedFinds` |
| enav-model/src/main/java/dk/dma/enav/model/geometry/grid/Cell.java:36 | `compareTo` subtracts two `int`s, which overflows and breaks the `Comparable` contract | cell ids 0 and `Integer.MIN_VALUE`: both comparisons are negative | `Integer.compare(o.getCellId(), getCellId())` | medium, not executed | `Grid.CompareTo`, `Grid.CompareToAntisymmetryFails` | `Grid.CompareToIntended`, `Grid.CompareToIntendedMeetsComparable` |

## Left out

- `build()` (MaritimeCloudClientConfiguration.java:77-110): it loads the client class by name through reflection, unwraps constructor exceptions and calls `connect()` on a connection whose code is not part of this model; `Build` models only the identity assignment of `build(MaritimeId)`.
- The default position supplier's answer (`PositionTime.create(0, 0, 0)`), and the types `PositionTime`, `MaritimeId` and `BroadcastOptions`: their code is not part of this model, so they are opaque values. `MaritimeId.create(String)` is the parameter `parse` of `CreateFromString`, and any exception it throws is not modelled.
- `getListeners` hands out the live `ArrayList`, so callers can change the configuration through it; the model returns the list as a value and does not capture that aliasing.
- Object identity: `withMessage` and `create` return new `ClosingCode` objects, and Java compares them by reference; the model compares codes by their fields.
- Java serialization of `ClosingCode`.
- `Grid.HashCode`: its contract covers ids from -2^32 up to 2^32 - 1; for ids outside that range the hash is defined but no closed form is stated.
- Discovery of message types through `ServiceLoader`, which instantiates providers and may fail: the loaded types are a given sequence. The unused `CACHE` map and the `Ack` interface, which has no behaviour.
- The `IllegalArgumentException` branch of `getChannelField` (BroadcastMessage.java:93-94): `f.get(null)` on a static field ignores its argument, so the model does not raise it. The `IllegalAccessException` branch (BroadcastMessage.java:95-96) is modelled by `Inaccessible`, with the field's readability given as a flag rather than derived from Java's access rules. Class initialisation failing inside `f.get` is not modelled.
- `Class.getField`'s search through superinterfaces and superclasses is not modelled step by step: a message type carries the public `CHANNEL` field that search reaches first as `inheritedField`.
- Null arguments that the Java code dereferences: `getKeepAlive(null)` and `setKeepAlive(time, null)` (MaritimeCloudClientConfiguration.java:139, 192), `findChannelForMessageType(null)` and `getChannelField(null)` (BroadcastMessage.java:77) and `compareTo(null)` (Cell.java:36) all throw `NullPointerException`; the model's parameter types exclude null there.
- The error messages of `getChannelField` are given by `ChannelError.Message`; the model returns the error kind and the type rather than a `RuntimeException` or `Error` object with a cause.
- `ServiceRegistration` and `ServiceMessage`: an interface with a three-state enum and a thin wrapper over reflection, with no logic to model.
- Connection and session lifecycle, keep-alive timing, reconnection, listener fan-out and concurrency: none of it is implemented in the modelled files.
