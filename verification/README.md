# librsi: a verified model of the RSI response path

librsi is the provider side of the Peios registry: a source reads framed requests from its
source fd, and answers each with one framed response. This project models the part librsi
implements itself (building, validating and sending responses, `src/response.rs`) and the
request header split that supplies the request id and op code a response must echo
(`src/request.rs`). `dafny verify dfyconfig.toml` checks everything.

## How it is laid out

| file | what it holds |
|---|---|
| `Base.dfy` | bytes, machine integers, C `(pointer, count)` views, errno results |
| `LittleEndian.dfy` | fixed-width little-endian integers and their inverses |
| `GuidOrder.dfy` | lexicographic order, sort, dedup, and what the sorted forms decide |
| `CAbi.dfy` | the C structures, and the constants and answers taken from the kernel crates |
| `Heap.dfy` | the allocator: an arbitrary schedule of grants and refusals, and the refusals among the requests made |
| `Validation.dfy` | the GUID vectors, the collecting loops and the metadata validators |
| `Wire.dfy` | payload encoders, decoders, and their exactness |
| `Frames.dfy` | whole frames, the one total decoder, the kernel's check |
| `Writer.dfy` | the sticky-OOM frame writer, the encoding loops, header patching, finish |
| `Respond.dfy` | the source fd, the outcome of a call, the six `rsi_respond_*` helpers |
| `Outcomes.dfy` | what holds of every frame sent, sizes, precedence of errors |
| `Layout.dfy` | where every byte of a sent frame comes from, by offset and digit |
| `Verdicts.dfy` | which answer each helper gives, as a table over its arguments |
| `Language.dfy` | the exact set of frames that can be sent |
| `Request.dfy` | header split and op gate (module `RequestFrame`) |
| `Runs.dfy` | sequences of calls, the byte stream on the fd, a serve run |

## What it takes as given

* The op numbers, `RSI_OK`, the known statuses and the answers of `rsi_response_op_code`,
  `rsi_request_has_status_only_response` and `parse_rsi_status` are one record, `CAbi.Uapi`,
  over which everything is quantified. Its only assumptions: the five payload ops differ, are
  accepted by `rsi_response_op_code` and are not status-only; an accepted op has bit 15 clear;
  `RSI_OK` is a known status. `usize::MAX` is a field of the same record and may be any number.
* `parse_rsi_request_header` accepts at least 22 bytes with a known op; whatever else it may
  check is a function parameter (`vet`).
* The k-th allocation request is answered by the k-th entry of a schedule fixed in advance but
  otherwise arbitrary; "refused" always means that the schedule refuses a request that was made.
  A request is one call that may be refused: a GUID vector asks only when it has no room left,
  as `try_reserve` does, while every `try_extend` of the frame buffer counts as one, even where
  the buffer had room or nothing is appended, since peios-cabi is not part of this model. A
  refused `try_extend` leaves the buffer as it was.
* Each `write(2)` is answered by an arbitrary number; a negative one stands for its errno.
* A non-null pointer is valid for the elements it is read for; a null one may come with any count.
* `Vec::sort_unstable` is the function `Sort`; `SortedUnique` shows every sorting algorithm agrees.

`Respond.Outcome` is the specification of one call: which frame is written, or which errno is
reported, given whether an allocation was refused while validating (`early`) or while encoding
(`late`). `Respond.RequestsOf` computes those two flags, and where the allocator is left, from the
schedule and the arguments: the pushes of the GUID vectors with their slack, and one request per
append until the first refusal. Each helper is an imperative method proved to do just that, so
arguments, schedule and write answers decide everything it does. The theorems about frames and
runs are about `Outcome`, and a run's returns are computed from the fd's own answers.

## Results in short

* The sort / adjacent-compare / dedup / vector-equality validators decide the set condition
  they stand for, for every allocation schedule; the verdict does not depend on order,
  repetition, or how entries are spread over children.
* Frames are unambiguous: one total decoder inverts all six helpers, in both directions, and
  the frames that can be sent in answer to a request are exactly the byte strings that decode
  to a valid response carrying its id and op.
* Every byte of every frame sent is given by its offset, as a digit or byte of the caller's own
  arguments, and any byte string laid out so is the frame (`Layout`). Every answer of every helper
  is given by a literal condition on the same arguments (`Verdicts`). Neither mentions the encoders,
  the validators or the decoder.
* A refused allocation can only become ENOMEM, and ENOMEM comes only from one: a valid call fails
  for want of memory iff the schedule refuses one of its requests. The appends have a closed form;
  the requests of the validators are computed from the schedule's grants and their slack.
* Every frame sent passes the kernel's check, has an exactly known length, and answers the request
  of the step that wrote it, even in a serve run where other steps fail; without short writes the
  byte stream splits back into the frames written.

Where the code does not do what its comments say: `payload_len` is documented as the payload's
length, but `src/request.rs:173` cuts it to 32 bits. `SplitIsLossless` gives the exact condition
under which the view is the whole payload, and `OversizedRequestIsCut` what is lost otherwise. The
cut can be reached only if `parse_rsi_request_header`, which is not part of this model, accepts a
frame that long; if it compares the u32 `total_len` with the length, it does not, and
`TotalLenCheckPreventsCut` says the split is then always lossless.

## Model

| member | source | states |
|---|---|---|
| GuidOrder.SortedCheckIsAllPairs | src/response.rs:93-102 | after a lexicographic sort, "first is not nil and no equal neighbours" holds iff the unsorted input has no nil GUID and no two equal elements at any distance |
| GuidOrder.VectorEqualityIsSetEquality | src/response.rs:104-107 | for distinct required GUIDs, sorted vector equals sorted-and-deduplicated vector iff both hold the same set |
| GuidOrder.SortedUnique | src/response.rs:94 | two ascending arrangements of the same elements are equal, so the choice of sorting algorithm cannot matter |
| GuidOrder.DedupStrict | src/response.rs:106 | deduplicating a sorted vector leaves it strictly ascending |
| Base.RequireView | src/response.rs:45-57 | a pointer is refused with EINVAL exactly when it cannot be read for its whole count |
| LittleEndian.DigitsOf | src/response.rs:237 | byte i of an integer on the wire is its i-th base-256 digit, least significant first |
| Validation.GuidVec.TryReserve | src/response.rs:79-83 | no request when the room is there; otherwise one, and success with the room and the granted slack iff the schedule grants it, ENOMEM and nothing changed if not |
| Validation.GuidVec.PushGuid | src/response.rs:85-91 | appends the GUID, or reports ENOMEM for a request the schedule refused and leaves the items alone; requests and capacity are those of one push, and the underlying push is only ever made below capacity |
| Validation.PushesSplit | src/response.rs:85-91 | the requests of a series of pushes, with the slack each grant leaves, compose over any split of the series |
| Validation.PushesWithRoom | src/response.rs:85-91 | pushes for which there is room ask for nothing |
| Validation.PushesWithoutSlack | src/response.rs:85-91 | a full vector that is only ever granted what it asks for asks once per push, and stops at the first refusal |
| Validation.GuidVec.ValidateUniqueNonzero | src/response.rs:93-102 | accepts iff the GUIDs handed in are nonzero and pairwise different, leaving them sorted |
| Validation.MetadataGuidSet | src/response.rs:109-120 | succeeds iff the schedule refuses nothing, the array is readable and its GUIDs are nonzero and distinct; exactly one request unless empty or unreadable, and every push is within the reserved capacity |
| Validation.CollectEntries | src/response.rs:126-134 | collects exactly the set of GUID targets; rejects an illegal tag or a hidden target with a GUID, and turns a refusal of the schedule into ENOMEM; requests are exactly those of pushing the GUID targets read before the first illegal entry |
| Validation.LookupTargetGuidSet | src/response.rs:122-137 | returns the GUID targets of the entries sorted and deduplicated, iff the entries are legal and nothing is refused |
| Validation.EnumChildrenTargetGuidSet | src/response.rs:139-158 | the same over all entries of all children |
| Validation.ValidateLookupMetadata | src/response.rs:160-171 | ENOMEM iff the schedule refuses one of its requests, which are given exactly; otherwise accepts iff the metadata GUIDs are nonzero, distinct and exactly the set of GUID targets, and all targets are legal (literally: `Verdicts.LookupAcceptableMeans`) |
| Validation.ValidateEnumChildrenMetadata | src/response.rs:173-184 | the same for nested children (literally: `Verdicts.ChildrenAcceptableMeans`) |
| Verdicts.LookupAcceptableMeans | src/response.rs:160-171 | LOOKUP is acceptable iff no array is null with a count, every entry is tag 0 with a GUID not all zero or tag 1 with all zeros, no two metadata GUIDs are equal, and a GUID has metadata iff a tag-0 entry names it |
| Verdicts.ChildrenAcceptableMeans | src/response.rs:173-184 | the same for the entries of all children together |
| Verdicts.HiddenAlone | src/response.rs:66-73 | entries that are all tag 1 are acceptable iff they are all zeros and there is no metadata |
| Verdicts.GoodOrphansMeans | src/response.rs:186-209 | the DELETE_LAYER array passes iff it fits memory and its 16-byte stretches are pairwise different and none is all zero; EOVERFLOW iff it does not fit |
| Validation.OrphanedGuidBytes | src/response.rs:186-209 | EOVERFLOW, then null, then a refusal of its one request, then nil or duplicate; on success the caller's own bytes |
| Validation.Chunks | src/response.rs:202-206 | the 16-byte chunks, whose concatenation is the array |
| Validation.ChildrenAreConcatenatedLookup | src/response.rs:139-184 | children are accepted iff their arrays are readable and LOOKUP accepts the concatenation of their entries |
| Validation.LookupOrderIrrelevant | src/response.rs:122-171 | permuting entries or metadata does not change the verdict |
| Validation.ChildrenOrderIrrelevant | src/response.rs:139-184 | permuting children or metadata does not change the verdict |
| Validation.ChildEntriesOrderIrrelevant | src/response.rs:139-184 | moving entries within or between children does not change the verdict |
| Validation.RepeatedTargetIrrelevant | src/response.rs:104-107 | naming a GUID target again does not change the LOOKUP verdict |
| Validation.RepeatedChildTargetIrrelevant | src/response.rs:104-107 | naming a GUID target again in any child does not change the verdict |
| Validation.NilTargetsExcluded | src/response.rs:66-73 | an acceptable LOOKUP has no nil GUID target, though the tag check alone allows it |
| Wire.FieldBack | src/response.rs:361-368 | a length-prefixed field decodes to itself and leaves what follows |
| Wire.ManyBack | src/response.rs:431-438 | a run of records decodes to the same list, in order, and leaves what follows |
| Wire.ManyOnly | src/response.rs:431-438 | whatever decodes as a run of records is exactly their encoding |
| Wire.ChildBack | src/response.rs:558-566 | a child with its nested entry block decodes to itself |
| Wire.EnumChildrenBack | src/response.rs:557-570 | the two-level children block and the metadata block decode to the same structure |
| Wire.PayloadExact | src/response.rs:424-687 | a byte string decodes to a payload of a given layout iff it is that payload's encoding, every byte accounted for |
| Frames.HeaderBack | src/response.rs:236-240 | total length, request id, op and status are read back from offsets 0, 4, 12 and 14 |
| Frames.FrameExact | src/response.rs:382-391 | a byte string decodes to a response iff it is the frame of that response |
| Writer.FrameWriter.Raw | src/response.rs:338-342 | keeps `Valid`: the buffer is the concatenation of all appends, or the refusal is latched, the buffer holds exactly the whole appends before the first refusal in the schedule, and the allocator is never asked again |
| Writer.FrameWriter.OomMeansRefused | src/response.rs:318-342 | the flag is set iff the schedule refuses one of the requests for the appends so far, and then the last request made is the first refused |
| Writer.FrameWriter.Lpf | src/response.rs:361-368 | EINVAL iff null with a length, whatever the allocator does; otherwise length and bytes are appended |
| Writer.NewWriter | src/response.rs:373-377 | a valid writer holding the 18-byte placeholder |
| Writer.EncodePathEntryBlock | src/response.rs:424-440 | the verdict depends on the arguments alone; on success the whole counted block was appended; the number of appends is exact, also when a check stops it half way |
| Writer.EncodeMetadataBlock | src/response.rs:443-461 | the same for metadata, with the boolean checks |
| Writer.EncodeChildren | src/response.rs:557-566 | the same for the child loop |
| Writer.EncodeReadKey | src/response.rs:600-612 | the same for the READ_KEY fields |
| Writer.EncodeValues | src/response.rs:663-678 | the same for the value loop |
| Writer.EncodeBlankets | src/response.rs:679-685 | the same for the blanket loop |
| Writer.PutResponseHeader | src/response.rs:236-240 | bytes 0..14 become the header, every later byte is untouched (digit by digit in every frame sent: `Layout.SentHeader`) |
| Writer.BuildStatusFrame | src/response.rs:260-265 | the 18-byte header and status |
| Writer.FinishResponse | src/response.rs:382-391 | bad op before ENOMEM before EOVERFLOW; otherwise header and RSI_OK over the placeholder and the payload unchanged |
| Respond.WriteFrame | src/response.rs:244-253 | exactly one write with the whole frame; a negative answer gives its errno, the frame's length 0, any other EIO |
| Respond.FinishAndSend | src/response.rs:394-399 | one write of the finished frame, or none and the build error |
| Respond.RespondStatus | src/response.rs:295-316 | does exactly what `Outcome` says for a status call |
| Respond.RespondLookup | src/response.rs:471-493 | the frame written, the value returned and the allocator's final position are those `OutcomeUnder` and `RequestsOf` compute from arguments, schedule and write answers |
| Respond.RespondDeleteLayer | src/response.rs:502-521 | the same for DELETE_LAYER |
| Respond.RespondEnumChildren | src/response.rs:540-571 | the same for ENUM_CHILDREN |
| Respond.RespondReadKey | src/response.rs:580-614 | the same for READ_KEY (the bytes: `Layout.ReadKeyLayout`, the answers: `Verdicts.ReadKeyVerdict`) |
| Respond.RespondQueryValues | src/response.rs:645-687 | the same for QUERY_VALUES |
| Layout.SentHeader | src/response.rs:234-265 | bytes 0..18 of every frame sent are the digits, low byte first, of its own length, the request's id, the request's op plus 0x8000 and the status |
| Layout.ManyAt | src/response.rs:431-438 | a run of records lies at an offset iff each record lies behind the sizes of the records before it |
| Layout.StatusLayout | src/response.rs:259-265 | a byte string is the status frame sent iff it is 18 bytes with that header |
| Layout.LookupLayout | src/response.rs:424-461 | a byte string is the frame sent iff it has the header, the entry count at 18, entry i at 22 plus the sizes before it (layer length, layer, tag, GUID, sequence), then the metadata count and records (GUID, sd length, sd, volatile, symlink, time), and nothing more |
| Layout.EnumChildrenLayout | src/response.rs:557-570 | the same, iff, for children, each a length, a name and its own counted entries, then the metadata |
| Layout.ReadKeyLayout | src/response.rs:600-612 | the same, iff, for name, parent GUID, sd, volatile byte, symlink byte and time at their offsets |
| Layout.DeleteLayerLayout | src/response.rs:517-520 | the same, iff, for the count at 18 and the caller's bytes at 22 |
| Layout.QueryValuesLayout | src/response.rs:662-686 | the same, iff, for value i (name, layer, type, data, sequence) and blanket i (layer, sequence) at their offsets |
| Verdicts.StatusVerdict | src/response.rs:223-316 | a status is sent iff there is a request of an answerable op, the status is known, and RSI_OK only for a status-only op; otherwise EINVAL |
| Verdicts.LookupVerdict | src/response.rs:471-493 | exactly when LOOKUP ends in EINVAL (first of all for any other op or no request), ENOMEM, EOVERFLOW or a frame, and its length |
| Verdicts.EnumChildrenVerdict | src/response.rs:540-571 | the same for ENUM_CHILDREN |
| Verdicts.ReadKeyVerdict | src/response.rs:580-614 | the same for READ_KEY, with the null parent, the null fields and the booleans |
| Verdicts.DeleteLayerVerdict | src/response.rs:186-209 | the same for DELETE_LAYER, with its two overflows in their order |
| Verdicts.QueryValuesVerdict | src/response.rs:645-687 | the same for QUERY_VALUES |
| Outcomes.KernelAcceptsSent | docs/design-notes.md:39-42 | every frame sent has at least 18 bytes, its own length at 0, the request's id, its op with bit 15 set, and a known status |
| Outcomes.SentDecodes | src/response.rs:295-687 | the decoder recovers id, op and the whole response from any frame any helper sends |
| Outcomes.SentUnambiguous | src/response.rs:295-687 | equal frames answer the same request with the same response |
| Outcomes.EnomemIffRefused | src/response.rs:318-342 | corollary of the helper contracts: a call that passes every check ends in ENOMEM iff the schedule refuses one of its requests, those made while validating and the closed-form number of appends |
| Respond.AppendsMadeAll | src/response.rs:424-461 | a call no check stops makes exactly the closed-form number of appends |
| Outcomes.GrantedCallUndisturbed | src/response.rs:318-342 | corollary of the helper contracts: if the schedule grants a budget of one request per GUID target, one for the metadata and one per append, the outcome is that of the arguments alone |
| Outcomes.RefusalsOnlyGiveEnomem | src/response.rs:318-342 | corollary of the helper contracts: a refused allocation leaves the outcome as it was or makes it ENOMEM, never another frame, and never a success of a payload helper |
| Outcomes.EncodePrecedence | src/response.rs:382-391 | corollary of the helper contracts, after validation: EINVAL iff not encodable, then ENOMEM iff refused, then EOVERFLOW iff too long, else a frame |
| Outcomes.EncoderChecksRedundant | src/response.rs:424-461 | after validation only a null field or a bad boolean can still be rejected |
| Outcomes.NilTargetNeverSent | src/response.rs:160-184 | every path target in a decoded frame is tag 0 with a nonzero GUID or tag 1 with a zero one |
| Outcomes.SizeLaw | src/response.rs:424-461 | closed forms for the length of all six kinds of frame, from the caller's counts |
| Outcomes.OverflowBoundary | src/response.rs:387 | EOVERFLOW iff the closed form exceeds 2^32-1, otherwise a frame of just that length |
| Outcomes.ShapePartition | src/response.rs:224-232 | an OK frame of 18 bytes only for status-only ops, at least 22 bytes for payload ops, and every non-OK frame 18 bytes |
| Outcomes.DeleteLayerExact | src/response.rs:186-209 | DELETE_LAYER sends iff the sizes fit and the GUIDs are unique and nonzero, and carries the caller's bytes in the caller's order |
| Language.AcceptedIffValid | src/response.rs:160-209 | null pointers aside, acceptance depends only on the response its reader will see |
| Language.SentLanguage | src/response.rs:471-687 | the frames some call sends for a request under some schedule are exactly those that decode to a valid response with its id and op |
| RequestFrame.ParseRequest | src/request.rs:152-178 | EINVAL on null, EBADMSG on a bad header, otherwise `*out` is filled; untouched on error |
| RequestFrame.RequestBack | src/request.rs:166-175 | a frame put together from total, id, op, txn and at most 2^32-1 payload bytes parses to exactly those fields and that payload if its op is known and the open checks hold, and is EBADMSG otherwise |
| RequestFrame.RequestOnly | src/request.rs:164-178 | a frame is accepted iff it has 22 bytes, a known op in bytes 12 and 13 and passes the open checks; EBADMSG otherwise |
| RequestFrame.ReqPayloadFor | src/request.rs:48-68 | the payload is handed out iff the op matches and the view is readable |
| RequestFrame.SplitIsLossless | src/request.rs:166-175 | parsed fields and payload rebuild the frame iff the payload length fits 32 bits |
| RequestFrame.OversizedRequestIsCut | src/request.rs:173 | every accepted frame with more than 2^32-1 payload bytes, of any op: the decoder sees only the first (length modulo 2^32) of them |
| RequestFrame.OversizedFrameAccepted | src/request.rs:164-173 | for any known op and any payload length over 2^32-1 there is a frame the split accepts and cuts, unless the header parser's further checks refuse it |
| RequestFrame.TotalLenCheckPreventsCut | src/request.rs:164-173 | if the header parser compares `total_len` with the frame's length, the split is lossless for every accepted frame |
| RequestFrame.OnlyOwnDecoder | src/request.rs:55-57 | only the decoder for the op in bytes 12..14 gets past the gate |
| Runs.DeliveredInOrder | src/response.rs:244-253 | in a run of zero returns the i-th frame written is the i-th call's and the fd's i-th answer is its length |
| Runs.RespondAll | src/response.rs:295-687 | any sequence of calls: the frames added to the fd are the run's, the refusals are the allocator's schedule's, each return is 0 iff the fd's own answer to that call's write was the frame's length, each failed step's errno is its build errno, the negated answer or EIO, and without short answers the stream splits into the frames |
| Runs.ZeroMeansDelivered | src/response.rs:244-253 | in any run, a step returns 0 iff it wrote its frame and the fd's answer to that write was the whole length |
| Runs.ReturnsExplained | src/response.rs:244-253 | in any run, a step stopped before send returns its own errno, and a step that wrote returns the negated answer, EIO for a short one, or 0 |
| Runs.WriteDiscipline | src/response.rs:394-399 | a rejected call adds no write; any other adds its own frame, once, at its place in call order |
| Runs.FrameHasItsStep | src/response.rs:394-399 | every frame in the trace was written by a step of the run, at that step's place |
| Runs.GrantedRunUndisturbed | src/response.rs:318-342 | under a schedule that refuses nothing, every step of any run has the outcome of its arguments alone |
| Runs.RunDetermined | src/response.rs:295-687 | two runs of the same calls from the same allocator position under one schedule meet the same refusals and have the same outcomes |
| Runs.StreamComplete | src/response.rs:244-253 | the bytes the fd's writes took are the concatenation of the frames iff no answer was short of its frame |
| Runs.RunResplits | docs/design-notes.md:39-42 | without short writes the byte stream splits by `total_len` into the frames written |
| Runs.ResponseCorrelates | src/response.rs:211-240 | a response to a parsed request echoes its bytes 4..12 and its op with bit 15; a payload response only to its own op |
| Runs.EveryFrameServes | src/response.rs:211-240 | every frame a serve run writes carries bytes 4..12 and the op of the request of the step that wrote it, and decodes to the response chosen for it |
| Runs.BadMessageMeansMalformed | src/request.rs:166-178 | a step returns EBADMSG iff the parser refuses its frame |
| Runs.ServeRun | docs/design-notes.md:39-46 | if every step returns 0, the byte stream splits into one frame per request, the i-th echoing the i-th request and decoding to the i-th response |
| Runs.Serve | docs/design-notes.md:39-46 | the loop of parsing each frame and answering it: every step's return is given exactly as in `Runs.ReturnsExplained`, EBADMSG iff the parser refuses the frame, and every frame written, whatever fails around it, echoes and answers the request of the step that wrote it |

## Left out

- The 18 `rsi_request_*` payload decoders beyond the op gate: they copy fields out of lcs-core parsers, which are not part of this model.
- The internals of lcs-core, peios-uapi and peios-cabi: they enter as the assumptions listed above.
- `src/source.rs` (device open, ioctl, close): foreign calls around a field-by-field copy.
- `rsi_read_request` and `rsi_write_response`: direct `read`/`write` wrappers.
- errno as a thread-local, the allocator hookup, the panic handler and the personality symbol in `src/lib.rs`: errno is the returned error value here.
- Pointer validity and lifetimes: only null or non-null with a count is modelled; borrowed payloads are values.
- Writer.FinishResponse: patches the header into an array holding the vector's bytes, so that the frame shares storage with the writer's buffer is not captured.
- Validation.GuidVec.SortUnstable: the standard library's sorting and dedup passes are functions on the vector's contents, not their own in-place algorithms.
- The kernel's response parser in lcs-core: the decoder used here is written from the byte layout the encoder emits.
