# Fabric8: OpenWire TransactionInfo codec, container-name globs, composite operations

A Dafny model of three small pieces of the fabric8 code base, with proofs of what they promise.

**The TransactionInfo marshaller of the gateway's OpenWire v1 codec**
(modules `OpenWireStreams`, `BaseMarshaller`, `TransactionInfoMarshaller`). A `TransactionInfo`
command carries:
- the base-command header (command id, response-required flag);
- two cached nested objects, `connectionId` and `transactionId`;
- a signed `type` byte.

The tight encoding works in two passes:
- pass 1 (`tightMarshal1`) appends presence bits to a `BooleanStream` and returns a size;
- pass 2 (`tightMarshal2`) writes the payload.

The loose encoding writes everything in one pass. The streams are classes whose methods update
their fields. Each marshaller operation is a method whose postcondition ties the new stream
state to a specification function: `TightBits`, `TightBytes`, `LooseBytes`, `DecodeTight` or
`DecodeLoose`. The round-trip and truncation properties are lemmas about those functions. The
header and cached-object helpers of `BaseCommandMarshaller` are not part of this model. They
are given stand-in layouts with proved round-trip and truncation lemmas. The marshaller's
proofs use those lemmas and the lengths of the helpers' bit and byte images; they are proved for
these stand-in layouts only.

**Container-name globs of the lifecycle commands** (module `ContainerLifecycleAction`).
- `matches` builds an anchored regular expression by three chained `String.replace` calls.
  The model translates the text those calls produce, parses it into a small fragment of Java
  regular expressions (literal, `.`, `.?`, `.*`), and matches with Java's rule that `.` does
  not match a line terminator.
- `matchedAvailableContainers` and `expandGlobNames` are loops over sequences. The
  insertion-ordered set (`LinkedHashSet`) is a sequence without duplicates.
- `applyUpdatedCredentials` works on small classes for the container, its metadata and the
  data store.

**`CompositeOperation`** (module `CompositeOperations`). Each child operation is reduced to
how its `invoke` ends: normally, with an exception, or with a `java.lang.Error`. A `Journal`
object records the calls and log entries, and `Invoke` is proved against the function `Run`.

Where the code and its documentation differ, the model follows the code: `?` becomes `.?` and
so matches zero or one character, although the method's doc comment says a single character.

In `CompositeOperation.invoke`, `catch (Exception e)` does not catch a `java.lang.Error`, so an
Error ends the loop and leaves `invoke`. The composite is free of failures only for children that
throw exceptions.

## Model

| member | source | states |
|---|---|---|
| TransactionInfoMarshaller.GetDataStructureType | gateway/gateway-core/src/main/java/io/fabric8/gateway/handlers/detecting/protocol/openwire/codec/v1/TransactionInfoMarshaller.java:43-45 | the marshaller is registered under OpenWire's TransactionInfo type code, 7 |
| TransactionInfoMarshaller.RegisteredUnderOwnType | gateway/gateway-core/src/main/java/io/fabric8/gateway/handlers/detecting/protocol/openwire/codec/v1/TransactionInfoMarshaller.java:43-45 | every TransactionInfo reports the same type code as the marshaller it is registered with |
| TransactionInfoMarshaller.CreateObject | gateway/gateway-core/src/main/java/io/fabric8/gateway/handlers/detecting/protocol/openwire/codec/v1/TransactionInfoMarshaller.java:50-52 | a fresh `TransactionInfo` with default fields whose type code is the marshaller's |
| TransactionInfoMarshaller.TightMarshal1 | gateway/gateway-core/src/main/java/io/fabric8/gateway/handlers/detecting/protocol/openwire/codec/v1/TransactionInfoMarshaller.java:75-84 | appends exactly the header, connectionId and transactionId presence bits, in that order; returns header size + both cached-object sizes + 1, which is the length of the pass-2 payload |
| TransactionInfoMarshaller.TightMarshal2 | gateway/gateway-core/src/main/java/io/fabric8/gateway/handlers/detecting/protocol/openwire/codec/v1/TransactionInfoMarshaller.java:93-101 | consumes the pass-1 bits in order and writes header, connectionId, transactionId, then the type byte |
| TransactionInfoMarshaller.TightUnmarshal | gateway/gateway-core/src/main/java/io/fabric8/gateway/handlers/detecting/protocol/openwire/codec/v1/TransactionInfoMarshaller.java:61-69 | reads header, connectionId, transactionId and the type byte in that order; on success the object holds the decoded fields and exactly the consumed bits and bytes are gone; otherwise the first error is returned |
| TransactionInfoMarshaller.LooseMarshal | gateway/gateway-core/src/main/java/io/fabric8/gateway/handlers/detecting/protocol/openwire/codec/v1/TransactionInfoMarshaller.java:124-133 | appends header, connectionId, transactionId and the type byte to the output |
| TransactionInfoMarshaller.LooseUnmarshal | gateway/gateway-core/src/main/java/io/fabric8/gateway/handlers/detecting/protocol/openwire/codec/v1/TransactionInfoMarshaller.java:110-118 | reads the fields back in that order, or reports the decoder's error |
| TransactionInfoMarshaller.TightRoundTrip | gateway/gateway-core/src/main/java/io/fabric8/gateway/handlers/detecting/protocol/openwire/codec/v1/TransactionInfoMarshaller.java:61-101 | decoding pass 1's bits and pass 2's bytes restores every field and consumes exactly them, whatever follows |
| TransactionInfoMarshaller.LooseRoundTrip | gateway/gateway-core/src/main/java/io/fabric8/gateway/handlers/detecting/protocol/openwire/codec/v1/TransactionInfoMarshaller.java:110-133 | decoding the loose bytes restores every field and consumes exactly the bytes written |
| TransactionInfoMarshaller.TightTruncatedFails | gateway/gateway-core/src/main/java/io/fabric8/gateway/handlers/detecting/protocol/openwire/codec/v1/TransactionInfoMarshaller.java:61-69 | a tight payload cut short anywhere gives a buffer underrun, never a command |
| TransactionInfoMarshaller.LooseTruncatedFails | gateway/gateway-core/src/main/java/io/fabric8/gateway/handlers/detecting/protocol/openwire/codec/v1/TransactionInfoMarshaller.java:110-118 | a loose payload cut short anywhere gives a buffer underrun |
| TransactionInfoMarshaller.HeaderFirst | gateway/gateway-core/src/main/java/io/fabric8/gateway/handlers/detecting/protocol/openwire/codec/v1/TransactionInfoMarshaller.java:61-133 | in the bits and in both byte layouts the header comes before any variant field |
| TransactionInfoMarshaller.TypeUsesNoBit | gateway/gateway-core/src/main/java/io/fabric8/gateway/handlers/detecting/protocol/openwire/codec/v1/TransactionInfoMarshaller.java:80-83 | the type field takes no presence bit |
| TransactionInfoMarshaller.TightExchange | gateway/gateway-core/src/main/java/io/fabric8/gateway/handlers/detecting/protocol/openwire/codec/v1/TransactionInfoMarshaller.java:61-101 | pass 1 into a fresh bit stream, pass 2 into a fresh buffer and an unmarshal into a fresh object: the size pass 1 reports is the number of bytes written, and every field arrives |
| TransactionInfoMarshaller.LooseExchange | gateway/gateway-core/src/main/java/io/fabric8/gateway/handlers/detecting/protocol/openwire/codec/v1/TransactionInfoMarshaller.java:110-133 | a loose write then read restores every field and stops exactly at the end of the frame |
| TransactionInfoMarshaller.TightSize | gateway/gateway-core/src/main/java/io/fabric8/gateway/handlers/detecting/protocol/openwire/codec/v1/TransactionInfoMarshaller.java:83 | the tight size is the length of the tight payload |
| BaseMarshaller.HeaderTightRoundTrip | gateway/gateway-core/src/main/java/io/fabric8/gateway/handlers/detecting/protocol/openwire/codec/v1/TransactionInfoMarshaller.java:62 | the tight header decoder inverts the header encoder, as `super.tightUnmarshal` is assumed to |
| BaseMarshaller.HeaderLooseRoundTrip | gateway/gateway-core/src/main/java/io/fabric8/gateway/handlers/detecting/protocol/openwire/codec/v1/TransactionInfoMarshaller.java:111 | the loose header decoder inverts the header encoder |
| BaseMarshaller.CachedTightRoundTrip | gateway/gateway-core/src/main/java/io/fabric8/gateway/handlers/detecting/protocol/openwire/codec/v1/TransactionInfoMarshaller.java:65-66 | the tight cached-object decoder inverts pass 1 and pass 2 of the encoder, null included |
| BaseMarshaller.CachedLooseRoundTrip | gateway/gateway-core/src/main/java/io/fabric8/gateway/handlers/detecting/protocol/openwire/codec/v1/TransactionInfoMarshaller.java:114-115 | the loose cached-object decoder inverts the encoder, null included |
| OpenWireStreams.Int32RoundTrip | gateway/gateway-core/src/main/java/io/fabric8/gateway/handlers/detecting/protocol/openwire/codec/v1/TransactionInfoMarshaller.java:62 | the 32-bit big-endian two's-complement command id reads back as written |
| OpenWireStreams.ToOctet | gateway/gateway-core/src/main/java/io/fabric8/gateway/handlers/detecting/protocol/openwire/codec/v1/TransactionInfoMarshaller.java:99 | a Java byte written as an octet reads back as the same signed value |
| ContainerLifecycleAction.RegexSource | fabric/fabric-commands/src/main/java/io/fabric8/commands/AbstractContainerLifecycleAction.java:82 | the chained replacements act character by character: ‘.’ becomes an escaped dot, ‘?’ becomes `.?`, ‘*’ becomes `.*`, anything else stays, between `^` and `$` |
| ContainerLifecycleAction.Matches | fabric/fabric-commands/src/main/java/io/fabric8/commands/AbstractContainerLifecycleAction.java:81-84 | `matches` is the anchored match of the name against the glob read character by character (‘?’ as `.?`, ‘*’ as `.*`, the rest literal) |
| ContainerLifecycleAction.CompiledGlob | fabric/fabric-commands/src/main/java/io/fabric8/commands/AbstractContainerLifecycleAction.java:82 | the three replacements, in their order, produce an anchored expression that compiles to the glob read character by character: ‘?’ as `.?`, ‘*’ as `.*`, everything else literal |
| ContainerLifecycleAction.LiteralGlobMatchesOnlyItself | fabric/fabric-commands/src/main/java/io/fabric8/commands/AbstractContainerLifecycleAction.java:81-84 | a glob with neither ‘*’ nor ‘?’ matches a name if and only if the name is identical: ‘.’ is a literal dot and the match is anchored |
| ContainerLifecycleAction.StarMatchesAnySubstring | fabric/fabric-commands/src/main/java/io/fabric8/commands/AbstractContainerLifecycleAction.java:82 | a ‘*’ between two globs matches any substring without a line terminator, the empty one included |
| ContainerLifecycleAction.QuestionBetween | fabric/fabric-commands/src/main/java/io/fabric8/commands/AbstractContainerLifecycleAction.java:82 | a ‘?’ between two globs matches zero characters or one (not a line terminator), so `web?` matches both `web` and `web1` |
| ContainerLifecycleAction.StarAloneMatchesEveryName | fabric/fabric-commands/src/main/java/io/fabric8/commands/AbstractContainerLifecycleAction.java:82 | ‘*’ alone matches a name exactly when it holds no line terminator |
| ContainerLifecycleAction.QuestionMatchesZeroOrOne | fabric/fabric-commands/src/main/java/io/fabric8/commands/AbstractContainerLifecycleAction.java:82 | ‘?’ matches a name if and only if the name has at most one character that is not a line terminator |
| ContainerLifecycleAction.MatchingIds | fabric/fabric-commands/src/main/java/io/fabric8/commands/AbstractContainerLifecycleAction.java:68-76 | the ids kept are exactly the available ids the glob matches |
| ContainerLifecycleAction.MatchingIdsConcat | fabric/fabric-commands/src/main/java/io/fabric8/commands/AbstractContainerLifecycleAction.java:70-73 | the matching ids keep container-list order |
| ContainerLifecycleAction.MatchedAvailableContainers | fabric/fabric-commands/src/main/java/io/fabric8/commands/AbstractContainerLifecycleAction.java:68-76 | the loop returns exactly the matching ids in container-list order |
| ContainerLifecycleAction.Distinct | fabric/fabric-commands/src/main/java/io/fabric8/commands/AbstractContainerLifecycleAction.java:91 | the insertion-ordered set holds each added name once, and nothing else |
| ContainerLifecycleAction.DistinctKeepsFirstOccurrenceOrder | fabric/fabric-commands/src/main/java/io/fabric8/commands/AbstractContainerLifecycleAction.java:91 | two names keep the order of their first insertion |
| ContainerLifecycleAction.Candidates | fabric/fabric-commands/src/main/java/io/fabric8/commands/AbstractContainerLifecycleAction.java:97-104 | a name is added if and only if some argument contributes it: a glob argument by matching an available id, or a literal argument by being it |
| ContainerLifecycleAction.AddAll | fabric/fabric-commands/src/main/java/io/fabric8/commands/AbstractContainerLifecycleAction.java:100 | adding a list to the set appends its new elements in order |
| ContainerLifecycleAction.ExpandGlobNames | fabric/fabric-commands/src/main/java/io/fabric8/commands/AbstractContainerLifecycleAction.java:90-116 | no argument list gives an empty result with the "specify names" notice; otherwise the result is the distinct contributions in argument order, and the notice is the list, the "pattern matched nothing" text or the "specify names" text |
| ContainerLifecycleAction.IsGlob | fabric/fabric-commands/src/main/java/io/fabric8/commands/AbstractContainerLifecycleAction.java:98 | a name is a glob exactly when `matches` reads some character of it as a wildcard |
| ContainerLifecycleAction.ExpandName | fabric/fabric-commands/src/main/java/io/fabric8/commands/AbstractContainerLifecycleAction.java:98-103 | a name holding ‘*’ or ‘?’ expands to the matching available ids; any other name stands for itself |
| ContainerLifecycleAction.AnyGlob | fabric/fabric-commands/src/main/java/io/fabric8/commands/AbstractContainerLifecycleAction.java:96-100 | the `globUsed` flag is set exactly when some argument holds ‘*’ or ‘?’ |
| ContainerLifecycleAction.LiteralNamesKept | fabric/fabric-commands/src/main/java/io/fabric8/commands/AbstractContainerLifecycleAction.java:101-103 | a name without wildcards is always in the result, whether or not such a container exists |
| ContainerLifecycleAction.GlobAddsOnlyMatches | fabric/fabric-commands/src/main/java/io/fabric8/commands/AbstractContainerLifecycleAction.java:97-104 | every element of the result is a literal argument or an available id some glob argument matches |
| ContainerLifecycleAction.LifecycleAction.ApplyUpdatedCredentials | fabric/fabric-commands/src/main/java/io/fabric8/commands/AbstractContainerLifecycleAction.java:54-62 | with a user or password and container metadata, hands the pair to the metadata once and writes that metadata to the store once; otherwise nothing changes |
| CompositeOperations.Run | fabric/fabric-groups/src/main/java/io/fabric8/groups/internal/CompositeOperation.java:36-44 | the children invoked are a prefix of the array; the composite ends normally only after invoking every child, and otherwise with the Error of the last child invoked |
| CompositeOperations.FirstErrorEndsInvoke | fabric/fabric-groups/src/main/java/io/fabric8/groups/internal/CompositeOperation.java:37-43 | the first child ending in an Error is the last one invoked and the composite ends with that Error; together with InvokesEveryChild, the composite ends normally exactly when no child ends in an Error |
| CompositeOperations.NeverThrowsException | fabric/fabric-groups/src/main/java/io/fabric8/groups/internal/CompositeOperation.java:38-42 | the composite never lets an exception out; only an Error can leave it |
| CompositeOperations.InvokesEveryChild | fabric/fabric-groups/src/main/java/io/fabric8/groups/internal/CompositeOperation.java:37-43 | when no child ends in an Error, every child is invoked exactly once, in array order, and the composite completes normally |
| CompositeOperations.ExceptionDoesNotStopLaterChildren | fabric/fabric-groups/src/main/java/io/fabric8/groups/internal/CompositeOperation.java:38-42 | every child not preceded by an Error is invoked, at its own position, whatever exceptions earlier children threw |
| CompositeOperations.LogsEachException | fabric/fabric-groups/src/main/java/io/fabric8/groups/internal/CompositeOperation.java:40-41 | the log receives the exceptions of the invoked children, once each and in order |
| CompositeOperations.NoChildrenDoNothing | fabric/fabric-groups/src/main/java/io/fabric8/groups/internal/CompositeOperation.java:31-37 | with no children nothing is invoked or logged and the composite completes normally |
| CompositeOperations.ErrorStopsTheLoop | fabric/fabric-groups/src/main/java/io/fabric8/groups/internal/CompositeOperation.java:37-43 | once an Error has ended the loop, no remaining child is reached |
| CompositeOperations.CompositeOperation.constructor | fabric/fabric-groups/src/main/java/io/fabric8/groups/internal/CompositeOperation.java:29-33 | the composite keeps the array it is given |
| CompositeOperations.CompositeOperation.Invoke | fabric/fabric-groups/src/main/java/io/fabric8/groups/internal/CompositeOperation.java:36-44 | the calls, the log entries and the completion are those of `Run` on the array, and the array is unchanged |

## Left out

- BaseCommandMarshaller, the cached-object helpers, `BooleanStream` and the byte streams are not part of this model. Their layouts are stand-ins with proved round-trip and truncation lemmas; the marshaller's properties are proved for these layouts, not for arbitrary helpers.
- The `OpenWireFormat` reference cache is not modelled: every cached object is written in full.
- `BooleanStream`'s packing of bits into bytes is not modelled: the stream is a sequence of booleans.
- The casts to `TransactionInfo`, `ConnectionId` and `TransactionId` are left out, so a `ClassCastException` cannot occur. The nested objects are values tagged with a type code, and other type codes are not rejected.
- An `IOException` from the streams is modelled only as the error of reading past the end of the input.
- ContainerLifecycleAction.Matches: glob characters with a meaning in Java's regular expressions (`\ ^ $ | + ( ) [ ] { }`) are excluded by precondition. `matches` leaves them unescaped, and their regular-expression meaning is not modelled.
- ContainerLifecycleAction.ExpandGlobNames: the same precondition applies to its glob arguments. The printed messages are reduced to the `Notice` value that selects them.
- `FabricService` and `DataStore` plumbing is left out. The available container ids are a sequence input, and the store records the metadata objects written to it.
- What `CreateContainerMetadata.updateCredentials` does is not part of this model. The metadata records the credential pairs it is given.
- The `CompositeOperation` logger output is reduced to the list of logged throwables.
- Executors and threading around `CompositeOperation` are left out.
- A null child is not modelled as such: its `NullPointerException` is raised by `op.invoke()` inside the `try` and is caught and logged, which a child ending in `Exception` already models.
- A null operations array is not modelled: its `NullPointerException` comes from the for-each outside the `try` and leaves `invoke`; the model's array is never null.
- Children are values that end the same way each time they are invoked. Their side effects are modelled only as the journal entry.
