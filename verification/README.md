# Verified models of kuben's contracts

These Dafny modules model the parts of the repository where several functions
have to agree with each other, and prove that they do:

* **AgentLink** (`packages/api/agentlink`): the hand-written JSON printer and the
  strict reader of the link between hub and agent, the length-prefixed frames that
  carry the messages over a byte stream, the canonical feature sets and the
  handshake. Modules `Decimal`, `Utf8`, `Json`, `JsonGrammar`, `JsonRoundTrip`, `JsonUtf8`,
  `Protocol`, `Order`, `Wire`, `WireDecode`, `WireLaw`, `WireReads`, `WireFaults`, `Frame`,
  `FrameLaw`; results, options and bounds that every module uses are in `Wrappers`.
* **The write fence** (`packages/api/v1alpha1/runtime.go`): which envelope of an
  ApplicationRuntime the apiserver lets replace which, as a step relation over whole
  runs of writers, the envelopes that the hub builds for it
  (`apps/kuben/internal/kube/materializer/agent.go`), and the bound that makes every such
  envelope fit a frame although it is escaped twice, by encoding/json and by the link.
  Modules `Fence`, `Hub`, `EncodingJson`, `EnvelopeSize`.
* **The class rewriter** (`apps/console/scripts/rtl-codemod.ts`): physical Tailwind
  classes made logical and translate twins inserted, and what that means for the
  layout in both directions. Modules `JsText`, `Rtl`, `RtlLaw`, `RtlClasses`, `RtlLayout`.
* **The app specification** (`packages/api/v1alpha1/app.go`, `strict.go`, `enum.go`):
  defaults on reading, members left out on writing, the check for required
  members, and which documents are accepted as what. Modules `Values`, `Codec`, `Strict`,
  `AppSpec`, `AppSpecTypes`, `AppSpecValues`.
* **Environment lines** (`apps/console/src/lib/env.ts`): a parser and its printer.
  Modules `Env`, `EnvRegex`, `EnvLines`.
* **The contract normalizer** (`tools/genspec/main.go`): on the heap as it runs, as a
  function, by what it is for, and as a transformation that keeps what a JSON Schema
  means. Modules `GenSpec`, `GenSpecWalk`, `GenSpecPurpose`, `SchemaMeaning`, `SchemaGrowth`.
* **The data table** (`apps/console/src/lib/table.ts`): filter, stable sort, pages.
  Module `Table`.

Code that changes state has the form it has in the repository: the encoder is a
class that writes into its buffer, the frame layer reads into arrays from a stream
object that hands out arbitrary chunks, the normalizer changes map objects in place,
and the loops of the handshake, the splitter, the rewriter and the line parser are
loops. Each is proved against a function, and the laws are lemmas about these
functions. What the readers, the rewriter and the normalizer are for is stated a second
time without their steps: as a grammar, as a relation between a text's members and a
message, as a table of types, as the side of a box that a class name means.

A Go string is a sequence of bytes, one `char` below 256 each; UTF-8 validity is the
automaton of RFC 3629, section 4. A JavaScript string is a sequence of
characters; all that the code looks for is ASCII or white space, so UTF-16 units make no
difference.
JSON texts follow sections 2 to 7 of RFC 8259.

## Where the code and what is said of it differ

* `translate-x-[--x]`: the rewriter takes one minus off the name of a CSS variable and
  leaves the direction as it is, so this twin is not the mirror image
  (`RtlLaw.DoubleMinusLosesOne`, for every name). Every other twin is
  (`RtlLaw.TwinIsMirror`).
* The rewriter's test for a twin that is already present can never fire
  (`RtlClasses.PresentTestIsDead`).
* `DecodeAppSpec` accepts documents whose required members are missing: exactly those
  that are null, or have a null element in `env`, `domains` or `volumes`
  (`AppSpec.AcceptedIsPresent`; `AppSpec.NullIsAccepted` and
  `AppSpec.NullElementPasses` are such documents).
* An accepted document does not come back the same after reading, writing and reading
  exactly when it is null or has an empty list (`AppSpec.WriteOfDecode`;
  `AppSpec.EmptyListIsForgotten` is such a document).
* The normalizer is said not to change the meaning of a contract. It keeps it for every
  plain schema, that is, one without a free-form object in an asserting literal or in
  place of an `unevaluatedProperties`: neither the schema that has the keyword nor any it
  combines in place (by allOf, anyOf, oneOf, if, then, else, dependentSchemas or a reference) is
  free-form, or the keyword lets all pass (`SchemaMeaning.SameMeaning`). If a schema is
  not plain itself but all schemas below it are, it can only accept more, and its
  meaning is kept exactly if the members that are newly evaluated pass anyway
  (`SchemaMeaning.OnlyOpens`, `SchemaMeaning.KeptExactlyWhenTheyPass`); for an object
  schema that has nothing else, itself or in an `allOf`, exactly if the keyword accepts
  every value (`SchemaMeaning.FreeKeptExactlyWhenAnythingPasses`; with `false` they are
  the examples of `SchemaMeaning.UnevaluatedIsLost`). With schemas below that are not plain
  it can still only accept more as long as these are not below a `not`, `oneOf`, `if` or
  `contains` (`SchemaGrowth.NothingRefused`). Below each of these four it can accept less
  (`SchemaGrowth.EachOneTurns`; `SchemaGrowth.LessIsAccepted` has two such schemas). A
  `const` keeps its meaning exactly if no object in it looks free-form
  (`SchemaMeaning.ConstIsKeptExactlyWhenNone`).
* The pages of a table make up its rows only for a page size of at least one, although
  the page count is computed for any (`Table.PagesMakeUpRows`, `Table.PageLaw`).
* The comparator of a column orders its rows exactly if its values are consistent, which
  a column of numbers and strings need not be (`Table.OrderExactlyWhenConsistent`): it is
  not exactly if the collator puts a string of it between two of its numbers the wrong
  way round (`Table.ConsistentExactlyWhenNoneIsWrong`).

## Model

| member | source | states |
|---|---|---|
| WireLaw.DecodeOfEncode | packages/api/agentlink/json.go:22-55 | For every message: decoding its encoding gives the message in canonical form if and only if all its strings are valid UTF-8, and the invalid UTF-8 error otherwise |
| WireLaw.EncodedInjective | packages/api/agentlink/json.go:22-55 | Messages with equal encodings have equal canonical forms, valid strings or not |
| WireLaw.WrittenInOrder | packages/api/agentlink/json.go:22-97 | An encoding is the text of one object with the tag first and then exactly the named members of that kind of message in the order of the type, optional ones only if there is a value |
| WireLaw.DecodedIsCanonical | packages/api/agentlink/json.go:174-195 | Every body the reader accepts, however it is spaced, ordered or escaped, gives a canonical message that is a fixed point of encoding and decoding |
| WireReads.DecodeSays | packages/api/agentlink/json.go:174-227 | A body is decoded to a message exactly if it is valid UTF-8 and, without the space around it, the JSON text of an object whose members say that message: each required one there, texts, numbers in range, lists and enums as the message has them, optional ones absent, null or so, whatever else is there |
| WireReads.UnknownIsTaken | packages/api/agentlink/json.go:226 | A message whose type this build does not know is no error, whatever its other members are |
| WireReads.GetIsLast | packages/api/agentlink/json.go:184-198 | Of several members with one name the last one is read |
| WireReads.TrimSpaceLaw | packages/api/agentlink/json.go:179 | Trimming takes Unicode white space off both ends of a body, and all of it |
| WireFaults.DecodeRefuses | packages/api/agentlink/json.go:174-483 | A body is refused exactly for the first fault it has, in the order in which a message's members are looked at: invalid UTF-8, no object, no JSON, a member missing, of another type, or out of range |
| JsonGrammar.ParseIsTheGrammar | packages/api/agentlink/json.go:184-187 | The JSON reader takes exactly the texts of the grammar of RFC 8259, each for its value |
| JsonGrammar.EscapeIsText | packages/api/agentlink/json.go:461-471 | An escape is read exactly for what it stands for, surrogate pairs and lone surrogates included |
| JsonGrammar.PrintedIsShortest | packages/api/agentlink/json.go:139-171 | No JSON literal that stands for a string is shorter than the one the encoder writes |
| WireLaw.EncodedUtf8 | packages/api/agentlink/json.go:22-55 | An encoding is valid UTF-8 exactly when the message's strings are |
| WireLaw.NegotiationAcrossTheWire | packages/api/agentlink/json.go:229-248 | Negotiating on a Hello that crossed the wire agrees on the same version and features as on the Hello that was sent |
| WireLaw.HelloBytesIgnoreForm | packages/api/agentlink/json.go:67-74 | A Hello's bytes do not depend on the order or the repeats of its capabilities |
| WireLaw.SetReads | packages/api/agentlink/json.go:432-453 | A written feature set reads back as the canonical set |
| WireLaw.VariantCanonical | packages/api/agentlink/json.go:200-227 | Whatever variant is read from members with valid strings is canonical: sets sorted, unknown enums mapped, numbers in range |
| WireLaw.VariantReads | packages/api/agentlink/json.go:229-344 | The reader of each variant, given the members its writer writes, gives the canonical message |
| Wire.Encoder.Str | packages/api/agentlink/json.go:139-171 | The loop that flushes runs of plain bytes lazily writes exactly the quoted, byte by byte escaped string, and leaves what was in the buffer |
| Wire.Encoder.Key | packages/api/agentlink/json.go:99-103 | Appends a comma, the quoted name and a colon |
| Wire.Encoder.U32s | packages/api/agentlink/json.go:107-116 | Appends the JSON array of the numbers |
| Wire.Encoder.Set | packages/api/agentlink/json.go:118-127 | Appends the JSON array of the canonical set, whatever form the set is in |
| Wire.Encoder.OptStr | packages/api/agentlink/json.go:129-134 | Appends the member if there is a value and nothing otherwise |
| Wire.Encoder.Fields | packages/api/agentlink/json.go:60-65 | Appends the string members in order |
| Wire.Encoder.Hello | packages/api/agentlink/json.go:67-74 | Appends the members of the Hello, optional ones only when present |
| Wire.Encoder.Welcome | packages/api/agentlink/json.go:76-84 | Appends the members of the Welcome |
| Wire.Encoder.Observation | packages/api/agentlink/json.go:86-93 | Appends the members of the Observation, optional ones only when present |
| Wire.Encoder.Variant | packages/api/agentlink/json.go:26-53 | Appends the members of whichever message it is |
| Wire.Encode | packages/api/agentlink/json.go:22-55 | The bytes are the printed JSON object of the message's tag and members |
| WireDecode.ReadU32s | packages/api/agentlink/json.go:411-429 | The loop gives all the numbers if each is a u32, and the error of the first one that is not |
| JsonRoundTrip.LiteralOfEscape | packages/api/agentlink/json.go:139-171 | Written strings are self-delimiting: reading one off the front of any longer text gives the original bytes and the untouched rest |
| JsonRoundTrip.QuoteReads | packages/api/agentlink/json.go:461-471 | A quoted string is read back as a JSON value, whatever follows it |
| JsonRoundTrip.ValueOfPrint | packages/api/agentlink/json.go:22-55 | Any printed JSON value is read back from the front of a longer text, which keeps its rest |
| JsonRoundTrip.ParseOfPrint | packages/api/agentlink/json.go:174-195 | A printed value is the value its text parses to |
| JsonRoundTrip.NumberReads | packages/api/agentlink/json.go:457-459 | A number literal is read to its end and no further |
| JsonUtf8.RunEscapeAll | packages/api/agentlink/json.go:139-171 | Escaping changes nothing for a UTF-8 decoder in any state |
| JsonUtf8.RunPrint | packages/api/agentlink/json.go:22-55 | A printed value is valid UTF-8 exactly when all strings in it are |
| JsonUtf8.LiteralKeepsUtf8 | packages/api/agentlink/json.go:461-471 | A string read from valid UTF-8, escapes and surrogate pairs included, is valid UTF-8, and so is the rest of the text |
| JsonUtf8.ParseKeepsUtf8 | packages/api/agentlink/json.go:174-195 | All strings of a value parsed from valid UTF-8 are valid UTF-8 |
| Utf8.ValidIsRunes | packages/api/agentlink/json.go:175-177 | A string is valid UTF-8 exactly if it is a sequence of encoded scalar values: no surrogate, no overlong form, nothing cut off |
| Decimal.ParseUintFormat | packages/api/agentlink/json.go:473-483 | Parsing a printed number gives it back exactly when it is below the bound |
| Decimal.ParseIntFormat | packages/api/agentlink/json.go:396-409 | The same for signed numbers and both bounds |
| Protocol.NewFeaturesIsTheSet | packages/api/agentlink/protocol.go:69-73 | NewFeatures is strictly ascending and holds exactly the names given |
| Protocol.NewFeaturesCanonical | packages/api/agentlink/protocol.go:69-73 | Two lists give the identical feature set if and only if they have the same names |
| Protocol.Intersect | packages/api/agentlink/protocol.go:79-87 | The loop computes the names of the one canonical set that are in the other |
| Protocol.IntersectionIsSymmetric | packages/api/agentlink/protocol.go:79-87 | Intersect is the set intersection, sorted, and the same both ways round |
| Protocol.Versions.Descending | packages/api/agentlink/protocol.go:44-50 | The loop on an unsigned counter terminates for every range, also one from 0, with the descent of the range |
| Protocol.DescentLists | packages/api/agentlink/protocol.go:42-50 | The descent has exactly the versions of the range above 0, each once, highest first |
| Protocol.Negotiate | packages/api/agentlink/protocol.go:319-331 | The loop over the offer gives the negotiation of both sides |
| Protocol.BestIsHighest | packages/api/agentlink/protocol.go:316-331 | The agreed version is the highest one both sides hold, and there is none exactly when they share none |
| Protocol.NegotiationIgnoresForm | packages/api/agentlink/protocol.go:316-331 | The order and the repeats of what is offered do not matter |
| Protocol.RequireNeedsBothSides | packages/api/agentlink/protocol.go:308-314 | After a handshake a feature is required successfully exactly when both sides offered it |
| Protocol.SkewOfOne | packages/api/agentlink/protocol.go:28-53 | For all version numbers: hub and agent agree exactly when they are at most one version apart, and then on the older of the two |
| Frame.Stream.Read | packages/api/agentlink/frame.go:64-88 | The reader's contract: some bytes off the front, never more than asked for, an end only when nothing is left |
| Frame.ReadFull | packages/api/agentlink/frame.go:64-88 | Reading into a part of a buffer fills it with the next bytes whatever the chunks, or reports the end with all that was there |
| Frame.ReadHeader | packages/api/agentlink/frame.go:64-77 | A close before the first byte is told from an end inside the header, and four bytes give the big-endian length |
| Frame.ReadFrame | packages/api/agentlink/frame.go:64-88 | The outcome and the bytes left over are a function of the bytes to come and their end, not of the chunks; a whole frame is answered with the message of its body or the error of decoding it |
| Frame.WriteFrame | packages/api/agentlink/frame.go:48-60 | Writes header and body; a message over the limit is refused with nothing written; a broken writer got a prefix of the frame |
| Frame.Uint32OfPut | packages/api/agentlink/frame.go:53-55 | The four header bytes read back as the length, whatever follows |
| Frame.HeaderIsBigEndian | packages/api/agentlink/frame.go:53-55 | The header's bytes are the length's digits to base 256, the most significant first |
| Frame.FrameIsRead | packages/api/agentlink/frame.go:79-88 | Any in-limit frame, malformed body or not, is consumed as exactly its bytes, and is answered with the message of its body or the error of decoding it |
| FrameLaw.NextFrameIs | packages/api/agentlink/frame.go:64-97 | For any bytes and any end: one call gives a message, the decode error, a refusal of the length, a clean close or a link error exactly as the bytes begin with a whole frame whose body decodes or does not, with a length over the limit, are none, or end inside a frame, and leaves the bytes behind |
| Frame.OverLimitIsRefused | packages/api/agentlink/frame.go:75-78 | A length over the limit is refused after its four bytes |
| Frame.CutFrame | packages/api/agentlink/frame.go:92-97 | A stream that ends inside a frame is a link error, never a clean close |
| Frame.ReadAll | packages/api/agentlink/frame.go:64-88 | Calling ReadFrame until it fails gives the session of the stream's bytes |
| Frame.WholeCounts | packages/api/agentlink/frame.go:48-88 | The count of whole frames used below is the number of frames that end at or before the cut |
| Frame.WriteAll | packages/api/agentlink/frame.go:48-60 | Writing messages one after the other leaves exactly their frames, cut where the writer breaks, and succeeds exactly when it does not break |
| Frame.SessionOfFrames | packages/api/agentlink/frame.go:48-88 | For any bodies, any cut and any end: the outcomes of the whole frames in order, then a clean close or an error as the cut is on a boundary or not |
| Frame.SessionOfMessages | packages/api/agentlink/frame.go:48-97 | For any messages that fit, any cut and any end: exactly the messages of the whole frames in canonical form, then a clean close if and only if the peer closed on a frame boundary |
| FrameLaw.SessionAnswers | packages/api/agentlink/frame.go:64-97 | In a session of any bodies, cut anywhere, the k-th outcome is the message or the error of decoding the k-th body, and the last one is the end of the stream as it came |
| Fence.AllowedIsPartialOrder | packages/api/v1alpha1/runtime.go:58-77 | The update rules are reflexive, transitive and antisymmetric |
| Fence.RunMovesUp | packages/api/v1alpha1/runtime.go:16-20 | Whatever is written, the stored envelope only moves up in this order |
| Fence.RunIsFenced | packages/api/v1alpha1/runtime.go:58-77 | Any two states of a run, however far apart: same target and lifecycle, epoch and generation not lower, equal generation means equal input hash, release and plan |
| Fence.OldEpochNeverWrites | packages/api/v1alpha1/runtime.go:69-73 | Once an epoch is stored, no later write of an older one changes the state |
| Fence.DominantIsStored | packages/api/v1alpha1/runtime.go:58-77 | An envelope that may replace every other delivered one is stored in the end, in any order with any repeats |
| Fence.ConvergesExactlyWhenDominated | packages/api/v1alpha1/runtime.go:58-87 | All deliveries of the same envelopes end alike if and only if one of them may replace all the others |
| Fence.NewestDeliveredIsStored | packages/api/v1alpha1/runtime.go:16-20 | If the hub issues with generation and epoch non-decreasing and content determined by generation, any delivery leaves the newest delivered envelope stored |
| Fence.StoredIsInLimits | packages/api/v1alpha1/runtime.go:58-106 | Whatever is written, what is stored has an epoch of at least 0, a generation of at least 1, texts no longer in characters than their limits and digests of the form sha256: and 64 hexadecimal digits |
| Fence.OrderDecidesExactlyWhenIncomparable | packages/api/v1alpha1/runtime.go:58-77 | Without that rule: the order of two envelopes decides exactly when neither may replace the other, as with a higher epoch under a lower generation |
| Hub.BuiltIsValid | apps/kuben/internal/kube/materializer/agent.go:54-85 | The hub builds an envelope for every generation in range, at epoch 0, and the schema takes each of them |
| Hub.NewestRunIsStored | apps/kuben/internal/kube/materializer/agent.go:54-85 | Of the envelopes built for the runs of one lifecycle, delivered in any order with any repeats, the one of the newest run delivered is stored |
| Hub.InputHashTells | apps/kuben/internal/kube/materializer/agent.go:54-85 | Unless two texts have one digest, two envelopes have one input hash if and only if release, configuration revision, generation and resources are the same |
| EnvelopeSize.EscapedCost | packages/api/agentlink/json.go:139-171 | Escaping the escape of one byte costs at most 7 bytes |
| EnvelopeSize.Heavy2AtMost7 | packages/api/agentlink/json.go:139-171 | Escaped twice, valid UTF-8 costs at most 7 bytes per character, also where encoding/json adds an escape for a separator |
| EnvelopeSize.GoTextCost | apps/kuben/internal/kube/materializer/agent.go:88-98 | Whatever the hub's printer makes of a text, the link's escaping of it stays within the bound used above |
| EnvelopeSize.Cost2AtMost7PerByte | packages/api/agentlink/json.go:139-171 | Escaped twice, any string costs at most 7 bytes per byte |
| EnvelopeSize.ApplyFits | packages/api/agentlink/protocol.go:55-57 | An Apply whose spec is any envelope the schema accepts as the hub prints it, with names of at most 253 bytes, is within the frame limit |
| EnvelopeSize.ApplyArrives | apps/kuben/internal/kube/materializer/agent.go:82-98 | The agent decodes the Apply that was sent, and the spec in it parses to the envelope's members |
| EncodingJson.GoLiteral | apps/kuben/internal/kube/materializer/agent.go:88-98 | With the further escapes of encoding/json a string literal still stands for the same string and leaves the same rest |
| EncodingJson.ParseOfGoText | apps/kuben/internal/kube/materializer/agent.go:88-98 | Any text that parses means the same with the further escapes of encoding/json, for separators and for HTML |
| EncodingJson.GoKeepsUtf8 | apps/kuben/internal/kube/materializer/agent.go:88-98 | These escapes keep UTF-8 validity |
| EncodingJson.GoTextIsEscaped | apps/kuben/internal/kube/materializer/agent.go:87-95 | Nothing is left that encoding/json escapes: no line or paragraph separator, and no markup byte unless told not to |
| Rtl.Split | apps/console/scripts/rtl-codemod.ts:48-64 | The loop cuts a token at the colons at depth 0 |
| RtlLaw.JoinParts | apps/console/scripts/rtl-codemod.ts:48-64 | Joining what was split on colons gives the token back |
| RtlLaw.ReplaceUtility | apps/console/scripts/rtl-codemod.ts:48-84 | The variants do not move when the utility is replaced by one without a free colon |
| RtlLaw.MatchLaw | apps/console/scripts/rtl-codemod.ts:34-45 | A matching rule takes a physical word off the front and puts its logical one there |
| RtlLaw.LogicalIdempotent | apps/console/scripts/rtl-codemod.ts:75-84 | Making a token logical twice is making it logical once |
| RtlLaw.LogicalIsComplete | apps/console/scripts/rtl-codemod.ts:75-84 | Afterwards no rule matches, except under a physical variant |
| RtlLaw.LogicalUnchanged | apps/console/scripts/rtl-codemod.ts:75-84 | A token is left alone exactly when no rule matches it or a variant is physical |
| RtlLaw.TwinLaw | apps/console/scripts/rtl-codemod.ts:87-102 | A twin is logical already, and its presence switches insertion off on the next run |
| RtlLaw.TwinIsMirror | apps/console/scripts/rtl-codemod.ts:87-102 | A twin moves by the opposite of its token's value if and only if the value is not a bracket that begins with two minus signs |
| RtlLaw.DoubleMinusLosesOne | apps/console/scripts/rtl-codemod.ts:97-100 | For every name of a CSS variable, the twin of its translation has one minus less in the name and the same direction |
| RtlLaw.DoubleMinusExample | apps/console/scripts/rtl-codemod.ts:97-100 | The twin of translate-x-[--x] is rtl:translate-x-[-x] |
| RtlClasses.PiecesLaw | apps/console/scripts/rtl-codemod.ts:106 | The pieces of a class string alternate between words and gaps and make it up |
| RtlClasses.PiecesOfConcat | apps/console/scripts/rtl-codemod.ts:106 | Cutting undoes putting alternating pieces together |
| RtlClasses.WithTwinsKnown | apps/console/scripts/rtl-codemod.ts:110-117 | Every piece of the output is a piece of the input, a space or a twin, and the output either is the input or has a twin that the next run sees |
| Rtl.RewriteClasses | apps/console/scripts/rtl-codemod.ts:105-119 | The loop that pushes tokens and twins gives the rewritten class string |
| RtlClasses.RewriteIdempotent | apps/console/scripts/rtl-codemod.ts:105-119 | For every class string, rewriting twice is rewriting once |
| RtlClasses.PresentTestIsDead | apps/console/scripts/rtl-codemod.ts:115-116 | Where the test for a present twin is reached, no token is a twin |
| RtlLayout.LaysOut | apps/console/scripts/rtl-codemod.ts:1-28 | Every token keeps its variants and signs and says from left to right the property, edge and value it said; from right to left it says the mirrored edge, unless a variant places it physically, and then it is left alone |
| RtlLayout.SplitCuts | apps/console/scripts/rtl-codemod.ts:47-64 | A token is cut at its colons outside of brackets and nowhere else, and its parts make it up again |
| RtlLayout.SignIs | apps/console/scripts/rtl-codemod.ts:69-73 | A utility's signs and core are the one way to write it as an optional !, an optional -, the core and an optional !, each sign taken if it is there |
| RtlLayout.MeansOne | apps/console/scripts/rtl-codemod.ts:30-45 | A utility names one property and edge at most |
| RtlLayout.RewriteLaysOut | apps/console/scripts/rtl-codemod.ts:105-119 | In a class string every piece is made logical, and if none has an rtl: translate, every token that moves by something other than 0 gets its twin behind it and no other token gets one |
| RtlLayout.MovesHasTwin | apps/console/scripts/rtl-codemod.ts:87-102 | A token has a twin exactly if it translates by something other than 0 under no physical, rtl or ltr variant |
| Strict.CheckFindsFirst | packages/api/v1alpha1/strict.go:67-95 | The check succeeds exactly when no place lacks a required member, and otherwise names the first place in an order by listing, name and index |
| Strict.WholeIsAccepted | packages/api/v1alpha1/strict.go:67-95 | No error if and only if every required member reachable through the shape is present and not null |
| Strict.WholeIsPresent | packages/api/v1alpha1/strict.go:64-95 | Of values with objects and lists where the shape wants them, those whose required members are all there are exactly those that the check lets through and that have no null in place of an object |
| Strict.EarlierAsymmetric | packages/api/v1alpha1/strict.go:72-94 | That order has no two places each before the other, so the first place is one place |
| Strict.AlikeGetTheSameAnswer | packages/api/v1alpha1/strict.go:67-95 | Values that are the same wherever the shape looks get the same answer |
| Strict.UnmentionedDoesNotMatter | packages/api/v1alpha1/strict.go:67-95 | Adding or changing a member the shape does not mention never changes the answer |
| Codec.EnumReturns | packages/api/v1alpha1/enum.go:10-43 | An enum is written exactly when it is valid or empty and reads back as itself or its default; what is read is written back as it stood |
| Codec.SliceReturns | packages/api/v1alpha1/app.go:49-58 | A list that is left out when empty reads back as itself, or as nil when it was empty |
| Codec.PointerReturns | packages/api/v1alpha1/app.go:139-145 | A pointer that is left out when nil reads back as nil or as what its element reads back as |
| AppSpec.VolumeReturns | packages/api/v1alpha1/app.go:64-90 | A written volume reads back as it was |
| AppSpec.GitSourceReturns | packages/api/v1alpha1/app.go:153-204 | A git source is written exactly when its strategy is valid or empty, and reads back with the strategy filled in and an empty path restored |
| AppSpec.ProcessReturns | packages/api/v1alpha1/app.go:269-322 | A process is written exactly when its enums are valid or empty, and reads back with http restored, the idle mode filled in and an empty command nil |
| AppSpec.ReplicasReturn | packages/api/v1alpha1/app.go:325-348 | Written bounds read back as they were, also where they differ from the defaults |
| AppSpec.IdleReturns | packages/api/v1alpha1/app.go:352-378 | Written idle settings read back with the mode filled in |
| AppSpec.DomainReturns | packages/api/v1alpha1/app.go:444-466 | A written domain reads back as it was, an empty TLS setting included |
| AppSpec.DefaultsAreFilledIn | packages/api/v1alpha1/app.go:78-466 | Every default the types promise is what a missing member is read as, and a null one but for strategy, mode and protocol, which refuse null; a text that is there is read as it is |
| AppSpec.RuntimeReturns | packages/api/v1alpha1/app.go:247-266 | A runtime is written exactly when all its processes are, and reads back with nil processes as an empty map |
| AppSpec.WrittenIsWhole | packages/api/v1alpha1/strict.go:21-41 | Nothing the encoder writes lacks a member the strict check requires |
| AppSpec.DecodeOfWrite | packages/api/v1alpha1/strict.go:47-62 | Writing succeeds exactly for specs whose enums are valid or empty, and DecodeAppSpec takes the output back with the defaults filled in |
| AppSpec.WriteOfDecode | packages/api/v1alpha1/strict.go:47-62 | Whatever is accepted can be written and reads back as the same spec but for empty lists; it is the identical spec exactly when the document is not null and has no empty list among its own or for a process's command |
| AppSpecTypes.AcceptedExactly | packages/api/v1alpha1/strict.go:43-66 | A document is accepted if and only if every member it has is of its JSON type, in range and of its enum, with null allowed but for enums, and every required member is there and not null, down to every element |
| AppSpecValues.DecodedIs | packages/api/v1alpha1/app.go:43-466 | Every member of the decoded specification is what the document has under its name, or else its documented default or nil |
| AppSpec.TightExactlyWhenNoEmptyList | packages/api/v1alpha1/app.go:43-59 | A spec that was read has an empty list that is not nil, or nil processes, exactly when its document has an empty list or is null |
| AppSpec.AcceptedIsPresent | packages/api/v1alpha1/strict.go:43-62 | An accepted document has every required member, down to every element, if and only if it is not null and has no null element in env, domains or volumes |
| AppSpec.EmptyListIsForgotten | packages/api/v1alpha1/app.go:49-58 | An accepted document with an empty list whose spec is not a fixed point |
| AppSpec.NullIsAccepted | packages/api/v1alpha1/strict.go:47-62 | The document null is accepted as the zero spec |
| AppSpec.NullElementPasses | packages/api/v1alpha1/strict.go:83-93 | One document of the family that AcceptedIsPresent describes: a null domain, without its required host |
| AppSpec.EmptyElementFails | packages/api/v1alpha1/strict.go:83-93 | A domain without a host is named as missing it |
| Env.ParseEnvLines | apps/console/src/lib/env.ts:10-34 | The loop with its set of names seen gives the parse of the text: variables and numbered errors in order |
| EnvLines.EveryLine | apps/console/src/lib/env.ts:10-34 | For every text: the first line that sets a valid name gives its variable, a line without a valid name or with one set before gives its numbered error, comments and blank lines give nothing, and there is nothing else, in the order of the lines |
| EnvRegex.NameIsMatched | apps/console/src/lib/env.ts:3 | A name is valid exactly if the regular expression matches it |
| EnvRegex.ReferenceExactlyWhenMatched | apps/console/src/lib/env.ts:4 | A value is taken for a reference to a secret exactly if the regular expression matches it |
| JsText.TrimTakesSpace | apps/console/src/lib/env.ts:15 | Trimming takes white space off both ends, and all of it |
| Env.ReferenceReads | apps/console/src/lib/env.ts:4 | A well-formed secret reference is read back from its text |
| Env.LinesOfJoin | apps/console/src/lib/env.ts:37-41 | Splitting into lines undoes joining them |
| Env.ParsedIsCarried | apps/console/src/lib/env.ts:10-34 | For every text, each parsed variable can be carried by a line and no name is repeated |
| Env.ParseOfFormat | apps/console/src/lib/env.ts:37-41 | Parsing the printed variables gives them back without errors if and only if their names are valid and distinct, their references in range and their values free of newlines, trailing space and reference shape |
| Env.ParseFormatParse | apps/console/src/lib/env.ts:10-41 | For every text: parsing, printing and parsing again gives the same variables and no errors |
| GenSpecWalk.Walk | tools/genspec/main.go:70-87 | The walk leaves the normalized layout in the heap, touches nothing outside the document and returns the number of free-form objects it had |
| GenSpecWalk.Normalize | tools/genspec/main.go:49-68 | Afterwards the heap holds the normalized document, in the same map objects, none shared |
| GenSpecWalk.IsFreeForm | tools/genspec/main.go:89-106 | The test on a map object decides whether its value is a free-form object |
| GenSpecWalk.ExplicitIsNormalized | tools/genspec/main.go:70-87 | The layout the walk leaves has the normalized document as its value |
| GenSpecWalk.ExplicitKeepsLayout | tools/genspec/main.go:70-87 | The walk moves no map object and shares none |
| GenSpecWalk.SecondWalkFindsNothing | tools/genspec/main.go:70-87 | The layout the walk leaves is one it can run on, and leaves alone, counting 0 |
| GenSpecWalk.NormalizeAgain | tools/genspec/main.go:49-68 | Normalizing the same heap a second time counts 0 and leaves the document that the first time left |
| GenSpec.CountAnyOrder | tools/genspec/main.go:78-80 | The count does not depend on the order in which a map is ranged over |
| GenSpec.NoneLeft | tools/genspec/main.go:46-48 | A normalized document has no free-form object |
| GenSpec.UnchangedExactlyWhenNone | tools/genspec/main.go:46-48 | A document is unchanged exactly when it counts 0 |
| GenSpec.NormalizedIdempotent | tools/genspec/main.go:46-48 | Normalizing twice is normalizing once |
| GenSpec.PathsAreKept | tools/genspec/main.go:46-48 | Every path leads where it led, and the only new paths are the members added to free-form objects, with the value true |
| GenSpecPurpose.EveryObjectAfter | tools/genspec/main.go:1-7 | Every object of the document keeps its members; one whose type takes objects and that says nothing of their members gets additionalProperties true, and no other gains or loses a member |
| GenSpecPurpose.NoneIsBare | tools/genspec/main.go:1-7 | Afterwards every schema, wherever it stands, whose type takes objects says something of their members or combines schemas |
| GenSpecPurpose.CountIsPlaces | tools/genspec/main.go:46-48 | The number given is the number of places that had such a schema |
| GenSpecPurpose.PlacesAreBare | tools/genspec/main.go:89-106 | The places counted are exactly the paths that lead to one |
| SchemaMeaning.SameMeaning | tools/genspec/main.go:1-7 | A plain schema accepts exactly the same instances after the normalizer, through references into the normalized document as well; plain means no free-form object in an asserting literal, nor in place of an unevaluatedProperties that does not let all pass |
| SchemaMeaning.ClosedObjectIsPlain | tools/genspec/main.go:99-104 | An object schema that names its properties is plain whatever its unevaluatedProperties are, if the schemas in it are; so its meaning is kept |
| SchemaMeaning.EvaluatedGrows | tools/genspec/main.go:89-106 | If all schemas below it are plain, what a schema evaluates can only grow, by object members only, and not at all if nothing in place of it is free-form |
| SchemaMeaning.OnlyOpens | tools/genspec/main.go:89-106 | If all schemas below it are plain, a schema with a free-form object in place of its unevaluatedProperties refuses nothing it accepted, and accepts more exactly by members that are newly evaluated and did not pass |
| SchemaMeaning.KeptExactlyWhenTheyPass | tools/genspec/main.go:99-104 | If all schemas below it are plain, its meaning is kept if and only if the newly evaluated members pass in every instance it then accepts |
| SchemaMeaning.KeptExactlyWhenAnythingPasses | tools/genspec/main.go:99-104 | If all schemas below it are plain, it takes every object otherwise and it lets nothing be evaluated before, its meaning is kept if and only if unevaluatedProperties accept every value |
| SchemaMeaning.FreeKeptExactlyWhenAnythingPasses | tools/genspec/main.go:99-104 | So it is for an object schema of any type that takes objects, with the keyword beside it or around an allOf with it |
| SchemaMeaning.UnevaluatedIsLost | tools/genspec/main.go:99-104 | Both schemas with unevaluatedProperties false refuse an object with a member before the normalizer and accept it afterwards |
| SchemaMeaning.ConstIsKeptExactlyWhenNone | tools/genspec/main.go:70-87 | A const means the same afterwards if and only if its value has no free-form object in it |
| SchemaGrowth.NothingRefused | tools/genspec/main.go:99-104 | Whatever a schema accepted it accepts afterwards if the schemas below it that are not plain stand below no not, oneOf, if or contains, through references as well |
| SchemaGrowth.EvaluatedIsKept | tools/genspec/main.go:89-106 | Nothing that such a schema let be evaluated is lost |
| SchemaGrowth.PlainBelowIsGrowing | tools/genspec/main.go:99-104 | A schema with only plain schemas below is such a schema, whatever its own unevaluatedProperties |
| SchemaGrowth.EachOneTurns | tools/genspec/main.go:99-104 | For any schema and each of the four keywords there is a schema around it that accepts exactly what it refuses, before and after; where the inner one accepts more this one accepts less |
| SchemaGrowth.LessIsAccepted | tools/genspec/main.go:99-104 | A not around an object schema with unevaluatedProperties false, alone or in a free-form object whose own let all pass, accepts an object before the normalizer and refuses it afterwards |
| Table.SortIsStable | apps/console/src/lib/table.ts:34-59 | On consistent values: rows sorted alike keep their order in either direction, the empty ones included |
| Table.SortIsOrdered | apps/console/src/lib/table.ts:34-59 | On consistent values: empty values come last in either direction, the others ascend or descend |
| Table.SortPutsInOrder | apps/console/src/lib/table.ts:44-56 | So numbers come by size, texts and numbers with texts as the collator puts them, forwards or backwards, and empty values at the end either way |
| Table.SortKeepsRows | apps/console/src/lib/table.ts:46-58 | Sorting loses and adds no row |
| Table.AnySortGivesThese | apps/console/src/lib/table.ts:48-57 | On consistent values the comparator allows one arrangement only, so the rows do not depend on the sorting algorithm |
| Table.OrderExactlyWhenConsistent | apps/console/src/lib/table.ts:48-57 | The comparator is an order on the rows of a column, in either direction, if and only if its values are consistent |
| Table.OneKindIsConsistent | apps/console/src/lib/table.ts:44-56 | A column of numbers or of strings is consistent if the collator is a total preorder |
| Table.MixedMayNotBe | apps/console/src/lib/table.ts:52-55 | Under any collator, a string that it puts between two numbers the wrong way round makes a column inconsistent |
| Table.ConsistentExactlyWhenNoneIsWrong | apps/console/src/lib/table.ts:44-56 | If the collator is a total preorder, a column of numbers and strings is consistent if and only if no string of it stands so between two of its numbers |
| Table.PageLaw | apps/console/src/lib/table.ts:79-91 | Any page index is clamped to a real page; with a page size of at least 1 it shows its rows at the positions it says and is empty only if there are no rows, and below 1 the first page shows all rows but as many as the size is below zero, and every other none |
| Table.PagesMakeUpRows | apps/console/src/lib/table.ts:79-91 | The pages put together are the rows if and only if the page size is at least 1 or there are no rows |
| Table.FilterRowsLaw | apps/console/src/lib/table.ts:25-32 | A query without words keeps what every word of it would keep: all rows |
| Table.FoundMeans | apps/console/src/lib/table.ts:25-32 | A row is found exactly if every word of the folded query stands somewhere in its folded text |
| Table.WordsLaw | apps/console/src/lib/table.ts:25-32 | The words of a query are what stands between its white space |
| Table.EveryFoundRowIsShown | apps/console/src/lib/table.ts:25-91 | Over all pages of the filtered and sorted rows, a row that is found shows as often as it is in the data and any other not at all, if and only if the page size is at least 1 or nothing is found |

## Left out

- TLS, certificates, enrolment tokens and digests are opaque strings; the link loops of hub and agent, the SQL registry and the agent's runtime check are not modelled.
- `rewriteSource` and the file walk of the class rewriter: only class strings are modelled.
- `mirroredTranslate` as geometry: a value is a text with a sign, and calc or CSS variables have no number.
- Status fields of ApplicationRuntime, whose rule applies only when both states have them, and ExecutionTask, whose rules are the fence's with fewer fields.
- encoding/json beyond the grammar: its nesting limit, members matched without regard to case, duplicate members in app specifications, and the texts of errors.
- `Decode` and `DecodeAppSpec` are functions; of their loops, the one over numbers is given as a method.
- `UnmarshalJSON` and `unmarshalEnum` return the new value; that the receiver stays as it was on an error is not modelled. Strings of app specifications are taken as encoding/json gives them, already valid UTF-8.
- DecodeAppSpec and its encoder work on decoded values, in which members are a map: a JSON value of an app specification or of a contract is another type than a parsed text, where members are in order and may repeat. Their JSON text is not modelled.
- SchemaMeaning.SameMeaning: here and in SchemaGrowth.NothingRefused, keywords that refer by dynamic scope ($dynamicRef) are not modelled, and references are followed to any finite depth.
- `Normalize` of the contract starts from the decoded document; reading and indenting the text are left out.
- Table.SortIsOrdered: numbers are reals without NaN; for a column whose values are not consistent the comparator is no order, and what an engine then does is left open.
- SHA-256 is a parameter that gives 64 hexadecimal digits; the canonical JSON of a plan's resources is taken as the plan has it.
- `normalize` of the table is a parameter, and `nextSort` is left out as a three-way case.
- Pages, API calls, message catalogues, end-to-end tests, the site worker and generated code.
