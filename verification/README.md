# Verification of the telephone engine

A Dafny model of the parts of this SIP telephone that compute something: its audio filters and
codecs, its RTP receiver, its address and payload printers, its table of digest nonces, and the
call, dialog and transaction book-keeping of eXosip. `dafny verify dfyconfig.toml` checks it.

## What is modelled

- **Filters** (`Fir`, `Resample`). The six FIR engines work in place on arrays, each with its own
  layout of the delay line. All are proved against one convolution over the whole input stream, and
  the resampler against the companded convolution of the samples it picks, across calls.
- **Companding** (`Companding`). Mu-law and A-law after clause 3 of ITU-T G.711, with the byte
  loops over buffers. The exclusive-or masks are worked out on integers, bit by bit.
- **Addresses and payloads** (`InetNtop`, `RtpMap`, on `Numerals`). The printers, with a parser after
  section 2.2 of RFC 4291 as the reference for IPv6 text, and the C library's `atoi`, `strchr`
  and `snprintf` where rtpmap strings are cut (section 6 of RFC 4566).
- **RTP receiver** (`RtpReceive`, `Jitter`). Extended sequence numbers, the ordered queue, the
  statistics, and the jitter averages, taken over real numbers (sections 5.1 and 6.4.1 and
  Appendices A.1 and A.8 of RFC 3550).
- **Nonce table** (`NonceTable`). The fixed slots as a map from call-id and realm, and the nonce
  counts of section 3.2.2 of RFC 2617.
- **Calls** (`CallStore`, `CallOps`, `CallHandlers`, `EXosip`, and the proofs about them in
  `CallInvariants`, `CallRelease`, `CallGarbage`, `CallGrowth`, `CallSteps`, `CallTimes`,
  `CallNumbers`, `CallRuns`, `CallLookups`, `CallProtocol`, `CallPass`, `CallFronts`, `CallHistory`,
  `CallIds`, `CallFaults`, `CallLeftovers`, `CallScenarios`, `CallRequests`, `CallIncoming`,
  `CallTrimming`, `CallFate`, `Lost200`, `EXosipSteps`). Memory is explicit: calls, dialogs and
  transactions live in maps from addresses, and freeing one removes it, so following a pointer to a
  freed structure is a proof failure. The pointers that the source follows unchecked are the subject
  of `CallFaults`.
  `EXosip.Exosip` runs the functions as the C code does, on its fields, with next pointers and list
  positions, and each method is proved equal to a function of the store (`CallOps`, `CallHandlers`).
  What those functions guarantee is proved as lemmas: for one operation, for a release pass, and for
  every run (`CallRuns`). What a call of the API, a request, a renumbering and a release pass do is
  also said without those functions (`CallRequests`, `CallIncoming`, `CallNumbers`, `CallTrimming`,
  `CallFate`). A linked list is a sequence, `ADD_ELEMENT` puts an element in front and `REMOVE_ELEMENT` takes it out
  (`libosip2-3.0.3-2/include/osipparser2/osip_port.h:381-401`); position 0 of an osip list is its front.

The invariant of a run (`CallStore.Inv`, `CallRuns.Good`): calls and dialogs that are linked are
allocated, no dialog belongs to two calls; a transaction is in at most one place among the slots,
the dialogs' lists and the garbage list, and allocated if it is in any; a call's own transactions
name no dialog or one of the call, a dialog's transactions name none or their own, and all that
report to a call report to the one that holds them; a call is incoming or outgoing, not both; lists
are newest first; births are not in the future; lost-200 counts are between 0 and 5; at most the first
dialog of a call is established, and if the call has a request of its own, that names it. Beside it,
`CallTimes.Gentle` says what every operation leaves of the dialogs and transactions it does not work
on; what holds over runs of a single dialog rests on it.

## What came out differently

- Sequence numbers: `rtp_putq` drops duplicates without counting them, so the receive statistics
  close if and only if no packet arrives as one.
- A packet older than the last one delivered by more than half the circle less the jump limit looks
  like a jump ahead, and is queued rather than thrown away as late (`RtpReceive.LateExactly`).
- A-law has no clamp for positive samples: 32768 comes back as 8.
- Mu-law: samples -3, -2, -1 are sent as negative zero, which a second pass turns into positive zero.
- `_inet_ntop4` compares the length without the terminator: text exactly as long as the room is
  written one character past it.
- `jitter_control_init` keeps the last difference.
- `_eXosip_delete_nonce` clears one slot; a call with challenges of two realms leaves the other. A
  call-id longer than its field is cut when stored, and is then stored again rather than updated.
- The nonce count of RFC 2617 is hexadecimal and is printed in decimal: from 10 on the text says
  another number, though below 10^8 still a rising one.
- `eXosip_process_cancel` looks at the dialogs of a call to the end even after a match, so the
  CANCEL of a re-INVITE is never listed in its dialog, and finds it only in the last call.
- "Names a dialog of the call" is not preserved by removing a dialog; "names its own dialog" is.
- Transactions in the garbage list may go on naming a dialog that is gone: a retry in the place of a
  call's request always leaves one if the request reported to the dialog (`CallGarbage`).
- The release pass frees a dialog in which a BYE goes on, with its whole call, when the call's own
  INVITE has failed and another dialog of it is at rest (`CallPass`, `CallScenarios`).
- The counter of ids starts again at 1 after 100000 without looking at the ids in use: a lookup, and
  with it the end of an unacknowledged call, may then hit another dialog (`CallIds`).
- The lost-200 loop goes back to the first dialog after it repeats, and sends that one's 200 OK. That
  is the right one only because no other dialog of a call can be established (`CallFronts`).
- An ACK in a dialog reads through NULL if neither the call nor an INVITE within the dialog came in.
  The loop around the retries goes on from the dialog it has retried for, which is freed if it is
  still established and had no request of its own (`CallFaults`).

## Model

| member | source | states |
|---|---|---|
| Fir.Clear | SIPEngine/FirAlgs.c:53-59 | the first ntaps cells become 0, the others stay |
| Fir.Basic | SIPEngine/FirAlgs.c:65-85 | returns the convolution of the taps with the whole input so far; the line stays newest first |
| Fir.CircularStep | SIPEngine/FirAlgs.c:99-125 | the same value from a line that is overwritten in a circle; one cell changes and the state advances |
| Fir.Shuffle | SIPEngine/FirAlgs.c:132-148 | the same value from a line shifted while it is summed |
| Fir.Split | SIPEngine/FirAlgs.c:154-187 | the same value from a line split at the state, with the pointers staying in the arrays |
| Fir.DoubleZ | SIPEngine/FirAlgs.c:193-218 | the same value from a doubled line, whose halves stay equal |
| Fir.DoubleH | SIPEngine/FirAlgs.c:224-249 | the same value from doubled coefficients, read at an offset into them |
| Fir.FilterBank.Step | SIPEngine/FirAlgs.c:65-249 | one step of all six engines side by side: each returns the convolution of everything fed so far, and their six layouts hold again |
| Fir.RunAll | SIPEngine/FirAlgs.c:53-249 | for every tap count, every coefficients and every input stream, all six return at every step the same convolution |
| Fir.ImpulseResponse | SIPEngine/FirAlgs.c:65-85 | a unit impulse plays the coefficients back, then silence |
| Fir.Linear | SIPEngine/FirAlgs.c:65-85 | superposition of two input streams |
| Fir.TimeInvariant | SIPEngine/FirAlgs.c:65-85 | silence in front of the stream changes no later output |
| Fir.FiniteMemory | SIPEngine/FirAlgs.c:65-85 | outputs depend on the last ntaps inputs only |
| Resample.Resampler.ResampleAudioInit | SIPEngine/sound_resample.c:29-39 | the coefficients are doubled, and the delay line is left alone |
| Resample.Resampler.ResampleAudio | SIPEngine/sound_resample.c:41-60 | writes under payload type 0 the mu-law code, under any other the A-law code, of the convolution of all samples picked since the start, cut to a short; and nothing behind outLen |
| Resample.EmittedAt | SIPEngine/sound_resample.c:47-59 | byte i is the companded convolution of the picked history up to i |
| Resample.EmittedByte | SIPEngine/sound_resample.c:47-59 | that is the mu-law code under payload type 0 and the A-law code under any other |
| Resample.StreamConsistent | SIPEngine/sound_resample.c:25-60 | cutting a stream of picks between two calls changes no byte |
| Resample.ResampleBlocks | SIPEngine/sound_resample.c:25-60 | any sequence of calls on one resampler sends the bytes that one pass over all their picks sends |
| Resample.PicksAt | SIPEngine/sound_resample.c:45-59 | which sample of which call each of these bytes is made from, and under which payload type |
| Resample.CallsJoin | SIPEngine/sound_resample.c:25-60 | the fold over calls that are handed the history each left equals one pass over the concatenated picks |
| Resample.PickedIndexInRange | SIPEngine/sound_resample.c:45-49 | with the exact factor, the picked index is i*inLen/outLen, inside the input, and never goes back |
| Companding.ValSegIsExponent | SIPEngine/sound_conv.c:9-28 | val_seg is the binary exponent of the magnitude, counted from 2^7 |
| Companding.UlawError | SIPEngine/sound_conv.c:103-187 | decode(encode(x)) is within 2^(seg+2) of x for |x| <= 32635 |
| Companding.UlawMonotone | SIPEngine/sound_conv.c:103-187 | decode after encode is nondecreasing over all integers, because of the clamp |
| Companding.UlawByteRoundTrip | SIPEngine/sound_conv.c:103-187 | encode(decode(u)) is u, except 0x7F which becomes 0xFF |
| Companding.UlawCodeWord | SIPEngine/sound_conv.c:103-156 | the code word: with the clipped, biased magnitude in step w of segment s it is 255 - (16s + w) for a sample that is not negative, 127 - (16s + w) for a negative one |
| Companding.UlawIdempotent | SIPEngine/sound_conv.c:103-187 | encoding, decoding and encoding again equals encoding once if and only if not -4 < x < 0 |
| Companding.UlawNotIdempotentExample | SIPEngine/sound_conv.c:103-187 | the sample -1 is an input where it does not |
| Companding.AlawError | SIPEngine/sound_conv.c:31-100 | decode(encode(x)) is within 8 of x for magnitudes under 256, within 2^(seg+2) above |
| Companding.AlawMonotone | SIPEngine/sound_conv.c:31-100 | decode after encode is nondecreasing up to 32767 |
| Companding.AlawNotMonotoneAbove | SIPEngine/sound_conv.c:31-100 | and not above: there is no clamp on the positive side |
| Companding.AlawMonotoneExactly | SIPEngine/sound_conv.c:31-100 | decode after encode is nondecreasing on all samples up to a bound if and only if the bound is at most 32767 |
| Companding.AlawByteRoundTrip | SIPEngine/sound_conv.c:31-100 | encode(decode(a)) is a for every byte |
| Companding.AlawCodeWord | SIPEngine/sound_conv.c:31-75 | the code word: the sign bit set for a sample that is not negative, then segment and step, with bits 0, 2, 4 and 6 inverted |
| Companding.AlawIdempotent | SIPEngine/sound_conv.c:31-100 | encoding, decoding and encoding again equals encoding once |
| Companding.MulawDec | SIPEngine/sound_conv.c:192-204 | every sample of the buffer is decoded, none beyond it |
| Companding.MulawEnc | SIPEngine/sound_conv.c:207-219 | half as many bytes as pcm bytes are encoded, none beyond |
| Companding.AlawDec | SIPEngine/sound_conv.c:221-232 | every sample of the buffer is decoded, none beyond it |
| Companding.AlawEnc | SIPEngine/sound_conv.c:235-247 | half as many bytes as pcm bytes are encoded, none beyond |
| Companding.RecodeBuffers | SIPEngine/sound_conv.c:192-247 | decoding and encoding whole buffers restores every A-law byte, and every mu-law byte but 0x7F |
| InetNtop.FindRun | libeXosip2-3.0.3-3/src/inet_ntop.c:180-206 | the scan, for word arrays of any length: the leftmost of the longest zero runs, or none shorter than 2 |
| InetNtop.BestRunIsShortened | libeXosip2-3.0.3-3/src/inet_ntop.c:180-206 | the run that the scan picks is the one of section 4.2 of RFC 5952 |
| InetNtop.ShortenedUnique | libeXosip2-3.0.3-3/src/inet_ntop.c:180-206 | and that section leaves no other choice |
| InetNtop.EmbeddedExactly | libeXosip2-3.0.3-3/src/inet_ntop.c:225-231 | which addresses end in dotted form: those with ten zero octets in front and then 0:0, or ffff, but for those that are printed shorter |
| InetNtop.Ntop6Form | libeXosip2-3.0.3-3/src/inet_ntop.c:211-239 | the text in full: each word in hexadecimal, or the dotted tail, with colons between, and two colons for the run |
| InetNtop.CollectWords | libeXosip2-3.0.3-3/src/inet_ntop.c:177-179 | bytes become big-endian words |
| InetNtop.FormatWords | libeXosip2-3.0.3-3/src/inet_ntop.c:211-239 | the loop that prints the words around the run |
| InetNtop.PrintTail | libeXosip2-3.0.3-3/src/inet_ntop.c:225-231 | the embedded IPv4 address |
| InetNtop.InetNtop4 | libeXosip2-3.0.3-3/src/inet_ntop.c:124-143 | the dotted form with its terminator is written, or NULL when it is longer than the room; what is written stays inside the room if and only if the text is not exactly as long as the room |
| InetNtop.OneCellTooMany | libeXosip2-3.0.3-3/src/inet_ntop.c:124-143 | 1.1.1.1 offered seven cells: the terminator is written in the eighth |
| InetNtop.InetNtop6 | libeXosip2-3.0.3-3/src/inet_ntop.c:151-253 | the text, or NULL when text and terminator do not fit |
| InetNtop.Ntop6Fits | libeXosip2-3.0.3-3/src/inet_ntop.c:164-239 | the text with its terminator fits the 46-byte temporary |
| InetNtop.ParseNtop6 | libeXosip2-3.0.3-3/src/inet_ntop.c:164-253 | reading the text by the grammar of section 2.2 of RFC 4291 gives the address back, for all addresses |
| InetNtop.Ntop6Injective | libeXosip2-3.0.3-3/src/inet_ntop.c:164-253 | no two addresses print alike |
| RtpMap.RtpmapNotTruncated | ortp-0.13.1/src/payloadtype.c:24-30 | name + 15 bytes hold the text of any 32-bit clock rate |
| RtpMap.RtpmapFits | ortp-0.13.1/src/payloadtype.c:24-30 | text and terminator stay inside the buffer whatever the rate |
| RtpMap.CutRtpmap | ortp-0.13.1/src/payloadtype.c:170-180 | cutting the text gives the name and the rate back |
| RtpMap.CutRtpmapExactly | ortp-0.13.1/src/payloadtype.c:24-30 | that is so if and only if the name has no slash |
| RtpMap.SlashInName | ortp-0.13.1/src/payloadtype.c:24-30 | an input with a slash in the name, cut wrongly |
| RtpMap.FindPayloadNumber | ortp-0.13.1/src/payloadtype.c:147-163 | the lowest index whose name, case ignored, and rate match; -1 exactly if there is none |
| Numerals.FoldExactly | ortp-0.13.1/src/payloadtype.c:147-163 | folding ignores the case of the letters A to Z, and nothing else |
| RtpMap.GetPayloadNumberFromRtpmap | ortp-0.13.1/src/payloadtype.c:165-186 | the same for an rtpmap string, -1 without a slash |
| RtpMap.AtoiExactly | ortp-0.13.1/src/payloadtype.c:165-186 | the rate that is read: white space, a sign or none, then digits up to the first character that is none |
| RtpMap.RtpmapRoundTrip | ortp-0.13.1/src/payloadtype.c:24-186 | printing the payload at index i and looking it up gives the lowest matching index, at most i |
| NonceTable.HttpAuths.StoreNonce | libeXosip2-3.0.3-3/src/jauth.c:505-551 | update in place, else the first free slot, else -1 |
| NonceTable.HttpAuths.DeleteNonce | libeXosip2-3.0.3-3/src/jauth.c:553-572 | the first slot of the call-id is cleared |
| NonceTable.HttpAuths.AddAuthentication | libeXosip2-3.0.3-3/src/eXosip.c:1091-1155 | one header for each slot of the call, in slot order, up to the first for which none comes about, with its challenge and the raised count; the counts that are raised, and no other slot changes; 0 if and only if it gets to the end |
| NonceTable.HttpAuths.AnswerChallenges | libeXosip2-3.0.3-3/src/eXosip.c:1168-1220 | the first answer to each challenge of one kind, and what is remembered |
| NonceTable.HttpAuths.AnswerResponse | libeXosip2-3.0.3-3/src/eXosip.c:1157-1288 | both loops in their order, the second only where the first got through; -1 without a challenge |
| NonceTable.UsedExactly | libeXosip2-3.0.3-3/src/eXosip.c:1097-1153 | so for every table: where the loop stops, what it has sent, and which counts are raised by then |
| NonceTable.BothAnswered | libeXosip2-3.0.3-3/src/eXosip.c:1157-1288 | each challenge that can be answered gets one answer, in order, those for WWW-Authenticate first, up to the first that cannot; those with a qop are stored in that order |
| NonceTable.StoredUnique | libeXosip2-3.0.3-3/src/jauth.c:505-551 | storing keeps call-id and realm, case ignored, unique among the slots |
| NonceTable.UsedUnique | libeXosip2-3.0.3-3/src/eXosip.c:1091-1155 | so does putting credentials into a request |
| NonceTable.DeletedUnique | libeXosip2-3.0.3-3/src/jauth.c:553-572 | and deleting |
| NonceTable.RunUnique | libeXosip2-3.0.3-3/src/jauth.c:505-572 | over any run of operations whose call-ids fit their field no two slots ever share call-id and realm |
| NonceTable.StoredUniqueExactly | libeXosip2-3.0.3-3/src/jauth.c:505-551 | for a call-id of any length, storing keeps that exactly unless a truncated copy of the id is already in the table and a slot is free |
| NonceTable.LongCallIdStoredTwice | libeXosip2-3.0.3-3/src/jauth.c:505-551 | a call-id of 64 characters, stored twice, is an input for which it does not |
| NonceTable.StoreIsMapUpdate | libeXosip2-3.0.3-3/src/jauth.c:505-551 | storing is a map update: the key is set, every other key is unchanged |
| NonceTable.DeleteIsMapRemoval | libeXosip2-3.0.3-3/src/jauth.c:553-572 | deleting removes one key and touches no other |
| NonceTable.DeleteLeavesNothingExactly | libeXosip2-3.0.3-3/src/jauth.c:553-572 | nothing of the call-id is left if and only if it had at most one slot |
| NonceTable.TwoRealmsDeletedOnce | libeXosip2-3.0.3-3/src/jauth.c:553-572 | a call with two realms, deleted once, is an input for which something is left |
| NonceTable.UsedSlot | libeXosip2-3.0.3-3/src/eXosip.c:1097-1153 | one request raises the count of a slot by at most one and carries exactly the raised count |
| NonceTable.CountsRise | libeXosip2-3.0.3-3/src/eXosip.c:1091-1155 | over any run of operations that leave a slot alone, the counts sent for it strictly increase, by exactly one while headers can be built |
| NonceTable.CountsStartAtTwo | libeXosip2-3.0.3-3/src/eXosip.c:1168-1220 | after a fresh challenge the counts of later requests are 2, 3, 4, ... |
| NonceTable.AnsweredOnce | libeXosip2-3.0.3-3/src/eXosip.c:1168-1220 | the answer to the challenge itself carries count 1 |
| NonceTable.CountTextExactly | libeXosip2-3.0.3-3/src/jauth.c:297-298 | the printed count is eight hexadecimal digits, those of its first eight decimal ones, and as the hexadecimal number it is meant to be it is the count if and only if the count is under 10 |
| NonceTable.CountTextRises | libeXosip2-3.0.3-3/src/jauth.c:297-298 | below 10^8 what is read still rises strictly with the count |
| NonceTable.CountTextCut | libeXosip2-3.0.3-3/src/jauth.c:297-298 | from there on a count prints as its first eight digits do |
| NonceTable.CountTextRepeats | libeXosip2-3.0.3-3/src/jauth.c:297-298 | so 100000000 prints as 10000000 |
| Jitter.JitterControl.Init | ortp-0.13.1/src/jitterctl.c:38-51 | everything is reset but the last difference |
| Jitter.JitterControl.SetPayload | ortp-0.13.1/src/jitterctl.c:57-62 | the delay becomes the configured milliseconds times the clock rate over 1000, rounded toward zero; the step times the clock rate is the largest multiple of the clock rate up to 160 * 8000; the averages stay |
| Jitter.CompensationExactly | ortp-0.13.1/src/jitterctl.c:59 | the delay in timestamp units, in both directions around zero: never more than the exact product, and less than one unit from it |
| Jitter.CorrectiveStepExactly | ortp-0.13.1/src/jitterctl.c:60 | 160 * 8000 lies between the step times the clock rate and the next multiple |
| Jitter.JitterControl.NewPacket | ortp-0.13.1/src/jitterctl.c:86-115 | one step of the averages, and the slide and delay handed out |
| Jitter.JitterControl.UpdateCorrectiveSlide | ortp-0.13.1/src/jitterctl.c:71-76 | one corrective step toward the slide |
| Jitter.DiffShift | ortp-0.13.1/src/jitterctl.c:86-87 | shifting both timestamps by the same amount modulo 2^32 changes no difference |
| Jitter.DiffTrue | ortp-0.13.1/src/jitterctl.c:86-87 | for true timestamps within half the circle it is their difference, with its sign |
| Jitter.RunWithin | ortp-0.13.1/src/jitterctl.c:92-98 | differences bounded by D keep |slide| <= D, 0 <= jitter <= 2D and 0 <= inter_jitter <= 2D over every run |
| Jitter.ConstantDifference | ortp-0.13.1/src/jitterctl.c:92-98 | n packets of difference c give slide c(1-q^n) and jitter n*beta*q^n*|c|, q = 1-beta |
| Jitter.SafeDelayBounds | ortp-0.13.1/src/jitterctl.c:99-113 | the delay is never under the configured one, and covers the jitter up to the cast |
| Jitter.SafeDelayOverRun | ortp-0.13.1/src/jitterctl.c:99-113 | over any bounded run the delay stays between the configured one and the larger of it and 2D |
| Jitter.CorrectionCloses | ortp-0.13.1/src/jitterctl.c:71-76 | while the slide stays where it is, repeated steps bring the corrective slide within one step of it, never past it |
| Jitter.CorrectionTracks | ortp-0.13.1/src/jitterctl.c:71-76 | while the slide moves about in a range, they bring it a step at a time to within one step of the range, and keep it there |
| RtpReceive.SeqMonotone | ortp-0.13.1/src/rtpparse.c:152-161 | the extended sequence number never decreases, until hi overflows |
| RtpReceive.SeqPlacedExactly | ortp-0.13.1/src/rtpparse.c:152-161 | it becomes the larger of itself and the true number if and only if the true number is placeable |
| RtpReceive.OrdinaryStreamsPlaceable | ortp-0.13.1/src/rtpparse.c:152-161 | jumps of at most 199 into the next cycle and lateness of at most 65000 inside the cycle are placeable |
| RtpReceive.TracksHighest | ortp-0.13.1/src/rtpparse.c:152-161 | after every packet of a placeable stream it is the highest true number |
| RtpReceive.PacketQueue.RtpPutq | ortp-0.13.1/src/rtpsession.c:101-138 | insertion by sequence number, from the back; duplicates are dropped |
| RtpReceive.SeqGreaterTrue | ortp-0.13.1/src/rtpsession.c:97-98 | of true numbers within half the circle, a packet is put behind those that are not above it |
| RtpReceive.PutContents | ortp-0.13.1/src/rtpsession.c:101-138 | one packet comes in, or its sequence number was there |
| RtpReceive.PutOrdered | ortp-0.13.1/src/rtpsession.c:101-138 | within half the number space the queue stays in order, across the wrap, and drops exactly duplicates |
| RtpReceive.PacketQueue.Getq | ortp-0.13.1/src/str_utils.c:162-173 | the oldest packet |
| RtpReceive.PacketQueue.SplitAndQueue | ortp-0.13.1/src/rtpparse.c:27-64 | empty packets are discarded; then eviction, oldest first, down to the limit |
| RtpReceive.QueuedAccounts | ortp-0.13.1/src/rtpparse.c:27-64 | every packet is queued, discarded or an uncounted duplicate, and a queue a packet went to ends within the limit |
| RtpReceive.PacketQueue.RtpGetq | ortp-0.13.1/src/rtpsession.c:142-184 | the newest packet not after the wanted timestamp; the older ones are rejected |
| RtpReceive.PacketQueue.RtpGetqPermissive | ortp-0.13.1/src/rtpsession.c:186-210 | the first packet, if it is not after the wanted timestamp |
| RtpReceive.TakenAccounts | ortp-0.13.1/src/rtpsession.c:142-184 | every packet of the queue stays, is rejected or is returned |
| RtpReceive.TakenExactly | ortp-0.13.1/src/rtpsession.c:142-184 | by true timestamps: the last due packet of the queue is returned, those before it are rejected, the rest stays |
| RtpReceive.RtpSession.RtpParse | ortp-0.13.1/src/rtpparse.c:66-213 | the whole receive path: statistics, sequence, source, timing and queues |
| RtpReceive.LateExactly | ortp-0.13.1/src/rtpparse.c:177-211 | by true timestamps: a media packet is thrown away and counted as late if and only if one was delivered that is newer, and it is not so much older that it looks like a jump ahead; otherwise it goes to the queue |
| RtpReceive.ParsedExactly | ortp-0.13.1/src/rtpparse.c:66-169 | every other packet: too short, not RTP, too short for its CSRCs, or an event |
| RtpReceive.TimingExactly | ortp-0.13.1/src/rtpparse.c:141-183 | what a media packet leaves behind, late or not: source, number, payload type with what the profile knows of a new one, averages and offset |
| RtpReceive.RtpSession.TakeMedia | ortp-0.13.1/src/rtpsession.c:945-996 | taking a media packet out, with the statistics it changes |
| RtpReceive.MediaTakenExactly | ortp-0.13.1/src/rtpsession.c:945-996 | by true timestamps: which packet is handed out, how many count as late for it, and what is remembered of it |
| RtpReceive.RunBalanced | ortp-0.13.1/src/rtpparse.c:66-213 | over any run: packets counted = short + late + discarded + queued + taken + duplicates |
| RtpReceive.DroppedExactly | ortp-0.13.1/src/rtpsession.c:101-138 | a packet is dropped as a duplicate if and only if one of its number is queued with no packet behind it that it comes after |
| RtpReceive.StatisticsCloseExactly | ortp-0.13.1/src/rtpparse.c:66-213 | the equation without duplicates holds if and only if no packet of the run meets that condition when it arrives |
| RtpReceive.DuplicateUncounted | ortp-0.13.1/src/rtpsession.c:121-126 | the same packet twice is a run in which it does not hold |
| EXosip.Exosip.FindWith | libeXosip2-3.0.3-3/src/misc.c:107-239 | the first transaction of a list with the method |
| EXosip.Exosip.FindLastTransaction | libeXosip2-3.0.3-3/src/misc.c:88-105 | the newer of the last incoming and the last outgoing one |
| CallOps.FindLastIsNewest | libeXosip2-3.0.3-3/src/misc.c:88-163 | it is a newest transaction of the method in the dialog, if there is any: lists are kept newest first |
| EXosip.Exosip.FindLastIncomingInvite | libeXosip2-3.0.3-3/src/misc.c:183-209 | the dialog's last incoming INVITE, or the call's own |
| EXosip.Exosip.FindLastOutgoingInvite | libeXosip2-3.0.3-3/src/misc.c:211-239 | the dialog's last outgoing INVITE, or the call's own |
| EXosip.Exosip.RemoveTransactionFromCall | libeXosip2-3.0.3-3/src/misc.c:33-86 | one occurrence leaves its slot or its list, in the order the places are searched |
| CallRelease.TakenOut | libeXosip2-3.0.3-3/src/misc.c:33-86 | a transaction its call holds goes to the garbage list and nowhere else: nothing is lost, the invariant holds |
| EXosip.Exosip.Update | libeXosip2-3.0.3-3/src/eXosip.c:890-970 | calls and established dialogs without an id are numbered, ended dialogs lose theirs; only live nodes are visited |
| CallNumbers.UpdatedExactly | libeXosip2-3.0.3-3/src/eXosip.c:890-970 | which id every call and every dialog has afterwards: numbers from the counter, or from 1 once that is past 100000, in the order of the lists, each call before its dialogs; -1 for ended dialogs; and no change to the others |
| EXosip.Exosip.DialogFree | libeXosip2-3.0.3-3/src/jdialog.c:194-227 | both lists are drained to the garbage list, without jinfo, and the dialog is freed |
| CallGarbage.FreedOrder | libeXosip2-3.0.3-3/src/jdialog.c:194-227 | they come in front of it, the outgoing ones first, each list from back to front |
| EXosip.Exosip.RemoveDialogReference | libeXosip2-3.0.3-3/src/jcall.c:56-85 | the call's own transactions stop naming the dialog |
| EXosip.Exosip.CallFree | libeXosip2-3.0.3-3/src/jcall.c:87-121 | all dialogs are freed and both slots filed, and the call is freed |
| CallGarbage.ReleasedOrder | libeXosip2-3.0.3-3/src/jcall.c:87-121 | in front of the garbage list stands the call's outgoing request, then its incoming one, then what its dialogs leave, the last first |
| CallRelease.DialogRemovedKeeps | libeXosip2-3.0.3-3/src/udp.c:1983-1987 | dropping references, unlinking and freeing loses no transaction and leaves no name of the dialog in any call |
| CallRelease.CallReleasedKeeps | libeXosip2-3.0.3-3/src/udp.c:1994-2001 | releasing a call loses no transaction: all it held is in the garbage list |
| CallGarbage.RemovedClean | libeXosip2-3.0.3-3/src/udp.c:1983-1987 | removing a dialog leaves a transaction in the garbage list that names a freed dialog if and only if one there named this dialog |
| CallGarbage.ReleasedClean | libeXosip2-3.0.3-3/src/udp.c:1994-2001 | releasing a call does if and only if one there named a dialog of the call |
| CallLeftovers.PassExactly | libeXosip2-3.0.3-3/src/udp.c:2146-2258 | a whole release pass does if and only if it frees a dialog named by a transaction that was there before and is not swept: what the pass itself files under a name it sweeps |
| CallLeftovers.StepLasting | libeXosip2-3.0.3-3/src/eXcall_api.c:39-1389 | no event but a retry and a release pass frees a dialog or files a transaction under a name |
| CallLeftovers.RunsCleanExactly | libeXosip2-3.0.3-3/src/eXcall_api.c:1358-1370 | in a run no garbage transaction ever names a dialog that is gone if and only if no retry frees a dialog that its old request or filed garbage names, and no release pass frees one that unswept garbage names |
| CallLookups.WeakNamesExactly | libeXosip2-3.0.3-3/src/jcall.c:56-85 | if transactions may name any dialog of their call, names stay inside the call after a removal if and only if no other dialog's transaction names the removed one |
| CallLookups.NameLeftBehind | libeXosip2-3.0.3-3/src/jcall.c:56-85 | a call with two dialogs in which a name is left behind |
| CallLookups.CrossedUnreached | libeXosip2-3.0.3-3/src/jcall.c:56-85 | that call breaks the invariant, so no run reaches it |
| EXosip.Exosip.PendingTransactionExist | libeXosip2-3.0.3-3/src/udp.c:1687-1772 | the six checks in order; what is stuck for 180 seconds is moved out |
| CallRelease.PendingKeeps | libeXosip2-3.0.3-3/src/udp.c:1687-1772 | the checks lose no transaction and keep the invariant |
| EXosip.Exosip.ReleaseFinishedTransactions | libeXosip2-3.0.3-3/src/udp.c:1854-1963 | at most one finished incoming and one finished outgoing transaction leave the dialog |
| CallProtocol.LastInvitesKept | libeXosip2-3.0.3-3/src/udp.c:1854-1963 | the last INVITE of the dialog, in either direction, is never among them |
| CallProtocol.LeavesOnlyWhenDone | libeXosip2-3.0.3-3/src/udp.c:1854-1963 | what leaves is terminated and older than 30 seconds |
| CallPass.PendingExactly | libeXosip2-3.0.3-3/src/udp.c:1687-1772 | something is pending in a dialog if and only if its last BYE, INVITE or REFER, in one of the directions, is unfinished and younger than 180 seconds |
| CallPass.UnfinishedProtects | libeXosip2-3.0.3-3/src/udp.c:2146-2258 | while something is pending in a dialog, the whole pass keeps the dialog linked if and only if it is not the case that the call's own INVITE is over and failed and another dialog of the call has nothing pending, nothing finished and no BYE over |
| CallScenarios.SiblingFrees | libeXosip2-3.0.3-3/src/udp.c:2050-2103 | a run of nine events from the start in which the pass frees a dialog whose BYE has just come in, as the retried INVITE of its call has failed |
| EXosip.Exosip.ReleaseFinishedCalls | libeXosip2-3.0.3-3/src/udp.c:1965-1990 | a terminated BYE ends its dialog |
| EXosip.Exosip.ReleaseAbortedCalls | libeXosip2-3.0.3-3/src/udp.c:2004-2143 | a call whose INVITE failed is released, a stuck one loses the dialog |
| EXosip.Exosip.VisitDialogs | libeXosip2-3.0.3-3/src/udp.c:2162-2190 | the loop over the dialogs, by next pointers read before each visit, equals the fold over the dialogs as they were |
| EXosip.Exosip.VisitCalls | libeXosip2-3.0.3-3/src/udp.c:2157-2192 | the loop over the calls, likewise |
| EXosip.Exosip.ReleaseAbandonedCalls | libeXosip2-3.0.3-3/src/udp.c:2194-2232 | calls without a dialog and with nothing to wait for are released |
| EXosip.Exosip.Sweep | libeXosip2-3.0.3-3/src/udp.c:2234-2257 | the position loop over the garbage list |
| EXosip.Exosip.ReleaseTerminatedCalls | libeXosip2-3.0.3-3/src/udp.c:2146-2258 | the whole pass, following only allocated nodes; afterwards the invariant holds |
| CallRelease.CollectedConserves | libeXosip2-3.0.3-3/src/udp.c:2157-2232 | the two call loops conserve transactions: every one held before is held exactly once after |
| CallRelease.KeptExactly | libeXosip2-3.0.3-3/src/udp.c:2234-2257 | the last loop removes exactly what is terminated or older than 180 seconds and keeps the order of the rest |
| CallRelease.ReleasePassExactly | libeXosip2-3.0.3-3/src/udp.c:2146-2258 | after the pass exactly the expendable garbage is no longer held, everything else is, and the invariant holds |
| CallPass.AnsweredCallStays | libeXosip2-3.0.3-3/src/udp.c:2146-2258 | a call whose INVITE succeeded and whose dialogs are open stays linked through the whole pass with all its dialogs, ready for the next one, if and only if it has a dialog or its own INVITE completed less than ten seconds ago |
| CallTrimming.TrimmingExactly | libeXosip2-3.0.3-3/src/udp.c:1687-1963 | exactly which transactions a visit takes out of the lists of a dialog: a BYE or REFER that is the last of its kind and side, unfinished and older than 180 seconds, unless one of the six looked at before it goes on; and if none of the six goes on, in each list the first but one or later that is over for 30 seconds and not the last INVITE |
| CallTrimming.VisitsExactly | libeXosip2-3.0.3-3/src/udp.c:2162-2190 | exactly when a visit gets to the BYE that ends the dialog, and when to the INVITE of the call, in states, ages and methods |
| CallFate.DialogGoesExactly | libeXosip2-3.0.3-3/src/udp.c:2146-2258 | exactly which dialogs the pass unlinks, and what it leaves in the lists of the others, in states, ages, answers, methods and ids: those of a call whose INVITE was refused or not answered with a dialog at rest, those with a BYE that is over, those at rest in a call whose INVITE is missing or stuck for 180 seconds, and those at rest with the id -1 |
| CallFate.CallGoesExactly | libeXosip2-3.0.3-3/src/udp.c:2146-2258 | exactly which calls it releases: those whose INVITE failed with a dialog at rest, and those all of whose dialogs go and whose INVITE is neither under 180 seconds old and unfinished nor completed less than ten seconds ago |
| CallFate.GarbageExactly | libeXosip2-3.0.3-3/src/udp.c:2234-2257 | exactly what is in the garbage list afterwards: what was held, is held by no call any more, is in none of the four final states and not older than 180 seconds; and exactly what is freed |
| EXosip.Exosip.CallFind | libeXosip2-3.0.3-3/src/jcall.c:30-42 | the first call with the id |
| EXosip.Exosip.CallDialogFind | libeXosip2-3.0.3-3/src/jdialog.c:36-50 | the first dialog with the id, and its call |
| EXosip.Exosip.TransactionFind | libeXosip2-3.0.3-3/src/eXcall_api.c:127-179 | the place of a transaction, by slots, dialogs and positions |
| CallLookups.TransactionFindExactly | libeXosip2-3.0.3-3/src/eXcall_api.c:127-179 | it finds exactly the transactions calls hold, and the only call that holds it |
| EXosip.Exosip.CreateTransaction | libeXosip2-3.0.3-3/src/eXcall_api.c:39-70 | a new transaction in front of the dialog's outgoing list, reporting to the dialog |
| EXosip.Exosip.SendInitialInvite | libeXosip2-3.0.3-3/src/eXcall_api.c:252-290 | a new call with the INVITE in its outgoing slot, in front of the calls |
| CallRequests.InitialInviteExactly | libeXosip2-3.0.3-3/src/eXcall_api.c:252-290 | the call and the INVITE it makes, field by field, and that nothing else changes but ids |
| EXosip.Exosip.SendRequest | libeXosip2-3.0.3-3/src/eXcall_api.c:531-628 | refused without a dialog or while the last request of the method goes on |
| CallRequests.SendRequestExactly | libeXosip2-3.0.3-3/src/eXcall_api.c:531-628 | a request of a method goes out in the first dialog with the id if and only if the newest of that method there, or for an INVITE of the dialog or the call, is completed or terminated, or there is none; it is in front of the others, with its method, state and report; otherwise nothing at all changes |
| CallRequests.SendRequestNowhere | libeXosip2-3.0.3-3/src/eXcall_api.c:546-553 | nor does it without such a dialog |
| EXosip.Exosip.SendPrack | libeXosip2-3.0.3-3/src/eXcall_api.c:1087-1150 | only for an INVITE in the proceeding state, within an established dialog |
| CallRequests.SendPrackExactly | libeXosip2-3.0.3-3/src/eXcall_api.c:1087-1150 | a PRACK goes out if and only if the transaction is an INVITE that is proceeding, within an established dialog |
| EXosip.Exosip.SendAnswer | libeXosip2-3.0.3-3/src/eXcall_api.c:793-872 | a 2xx to an INVITE starts the lost-200 timer; without an answer message the store stays |
| CallRequests.SendAnswerExactly | libeXosip2-3.0.3-3/src/eXcall_api.c:793-872 | the timer of the dialog is set, two seconds ahead, if and only if a 2xx is given to an INVITE that is not answered yet; nothing else changes but ids |
| CallRequests.NoHolder | libeXosip2-3.0.3-3/src/eXcall_api.c:127-179 | neither happens for a transaction that no dialog stands for |
| CallHistory.DueAfterAnswer | libeXosip2-3.0.3-3/src/jdialog.c:92-109 | and then fires from the third second on |
| CallHistory.DueAfterFiring | libeXosip2-3.0.3-3/src/eXosip.c:552-560 | once fired, again from the fifth second on, and after the fifth time no more |
| EXosip.Exosip.Terminate | libeXosip2-3.0.3-3/src/eXcall_api.c:874-1016 | CANCEL while ringing, BYE when established, neither for an incoming call refused with 603 |
| CallRequests.TerminateExactly | libeXosip2-3.0.3-3/src/eXcall_api.c:874-1016 | exactly when a CANCEL and when a BYE is sent, as what, that the dialog is over then, and that otherwise nothing changes |
| CallRequests.TerminateCallExactly | libeXosip2-3.0.3-3/src/eXcall_api.c:874-1016 | the same for a call without a dialog |
| EXosip.Exosip.RetryRequest | libeXosip2-3.0.3-3/src/eXcall_api.c:1154-1389 | the new transaction takes the slot of the old one, which is filed, and the dialog is freed; or it joins the dialog, which is NULL exactly if none was given; a request without an answer is left alone |
| CallRequests.RetriedExactly | libeXosip2-3.0.3-3/src/eXcall_api.c:1154-1389 | the request that is sent again, field by field, where it goes, and what becomes of the old one and of the dialog |
| CallRequests.RetriedAlone | libeXosip2-3.0.3-3/src/eXcall_api.c:1154-1389 | the same for a call without a dialog |
| CallRequests.RetriesExactly | libeXosip2-3.0.3-3/src/eXosip.c:262-310 | when it is retried for a dialog: exactly if its answer was a 401, a 407 or a 3xx, and the dialog stands for it, or it is the newest of an established dialog and under two minutes old |
| CallRequests.RetriesAloneExactly | libeXosip2-3.0.3-3/src/eXosip.c:645-703 | and when for a call without an established dialog |
| CallFaults.RetryFaultsExactly | libeXosip2-3.0.3-3/src/eXosip.c:262-310 | from where it is called, that dialog is NULL if and only if the request is the incoming INVITE of a call that has no dialog |
| CallGarbage.RetriedClean | libeXosip2-3.0.3-3/src/eXcall_api.c:1358-1370 | a retry that frees the dialog leaves a name of it in the garbage list if and only if the old request, or one there before, named it |
| CallGarbage.RetryLeavesName | libeXosip2-3.0.3-3/src/eXcall_api.c:1358-1370 | every retry of a call's own request that reports to the dialog does |
| CallScenarios.RunLeavesName | libeXosip2-3.0.3-3/src/eXcall_api.c:1358-1370 | and a run of five events from the start gets there |
| CallFaults.RetriesNewest | libeXosip2-3.0.3-3/src/eXosip.c:645-703 | the request that is looked at for an established dialog is a newest one it has sent, or the call's own |
| CallFaults.AutomaticFreesExactly | libeXosip2-3.0.3-3/src/eXosip.c:645-703 | the loop around the retries, for an established dialog and a request rejected in the last two minutes, goes on from a freed dialog if and only if the dialog had no request of its own; it retries the call's request then, which names the dialog |
| CallSteps.RetriedGrown | libeXosip2-3.0.3-3/src/eXcall_api.c:1154-1389 | a retry holds every transaction once, although it frees the dialog without dropping references |
| CallSteps.InitialInvitePlaced | libeXosip2-3.0.3-3/src/eXcall_api.c:252-290 | the new INVITE is held exactly once, and nothing else changes hands |
| CallSteps.TerminateGrown | libeXosip2-3.0.3-3/src/eXcall_api.c:874-1016 | terminating adds at most its one new transaction, in one place |
| CallHistory.TerminateEndsDialog | libeXosip2-3.0.3-3/src/eXcall_api.c:976-1015 | a BYE sent is the last of its dialog, and over any run no request finds the dialog any more until it is freed |
| EXosip.Exosip.MatchDialog | libeXosip2-3.0.3-3/src/udp.c:942-956 | the first established dialog that matches, in list order |
| EXosip.Exosip.ProcessAck | libeXosip2-3.0.3-3/src/udp.c:194-249 | the lost-200 timer is cleared; the INVITE whose request is read is the last incoming one, or NULL |
| CallFaults.AckFaultsExactly | libeXosip2-3.0.3-3/src/udp.c:207-213 | it is NULL if and only if the call did not come in and no INVITE came in within the dialog |
| CallFaults.OutgoingAckFaults | libeXosip2-3.0.3-3/src/udp.c:207-213 | which a run of three events from the start reaches |
| EXosip.Exosip.ProcessBye | libeXosip2-3.0.3-3/src/udp.c:150-192 | the BYE is listed, reports to no dialog, and the dialog is closed |
| EXosip.Exosip.ProcessWithinDialog | libeXosip2-3.0.3-3/src/udp.c:1002-1089 | requests in a dialog: rejected after a BYE, INVITEs while another goes on, and otherwise listed |
| EXosip.Exosip.ProcessNewInvite | libeXosip2-3.0.3-3/src/udp.c:489-588 | a new call with a new dialog and the INVITE in its incoming slot; a To tag is rejected |
| EXosip.Exosip.ProcessNewRequest | libeXosip2-3.0.3-3/src/udp.c:883-1128 | the whole dispatch of a request, and when it reads through a NULL pointer |
| CallIncoming.RequestWithinExactly | libeXosip2-3.0.3-3/src/udp.c:883-1089 | a request that matches an established dialog: what happens in the first one it matches, by method, CSeq number, the BYEs on record and the states of the last INVITEs |
| CallIncoming.RequestOutsideExactly | libeXosip2-3.0.3-3/src/udp.c:883-1128 | a request that matches none: the call and the dialog an INVITE makes, field by field, and what becomes of the others |
| CallIncoming.CancelExactly | libeXosip2-3.0.3-3/src/udp.c:318-470 | a CANCEL is listed in the first dialog of the first call whose own INVITE it matches, if that has one, and is filed otherwise |
| CallSteps.NewRequestExactly | libeXosip2-3.0.3-3/src/udp.c:883-1128 | a request's transaction gets exactly one place, except for ACK, equal or lower CSeq, a new INVITE with a To tag, and a SUBSCRIBE outside dialogs |
| CallProtocol.RemoteCseqGrows | libeXosip2-3.0.3-3/src/udp.c:958-984 | no request lowers the remote CSeq of a dialog |
| CallHistory.EndedStaysEnded | libeXosip2-3.0.3-3/src/udp.c:942-956 | over any run an ended dialog stays ended until it is freed, and no request finds it |
| CallHistory.ByeEndsDialog | libeXosip2-3.0.3-3/src/udp.c:150-192 | a first BYE is the last on record, and over any run no request finds the dialog any more until it is freed |
| CallProtocol.ReinviteIsLast | libeXosip2-3.0.3-3/src/udp.c:1030-1058 | an INVITE becomes the dialog's last incoming one if and only if no BYE is on record and no other INVITE goes on in either direction; otherwise it is filed and the CSeq stays |
| EXosip.Exosip.FindTarget | libeXosip2-3.0.3-3/src/udp.c:328-364 | the search for the INVITE to cancel |
| EXosip.Exosip.ProcessCancel | libeXosip2-3.0.3-3/src/udp.c:318-470 | the CANCEL is listed in the dialog found, or filed |
| CallLookups.CancelledInvite | libeXosip2-3.0.3-3/src/udp.c:332-345 | a call's own INVITE is always found, with the first dialog of the call |
| CallLookups.CancelledReinvite | libeXosip2-3.0.3-3/src/udp.c:346-364 | a re-INVITE is found if and only if its call is the last and no later dialog of it has incoming transactions; its dialog is never found |
| CallLookups.ReinviteMissed | libeXosip2-3.0.3-3/src/udp.c:346-364 | calls in which the INVITE to cancel is listed and not found |
| EXosip.Exosip.ReceiveFirstAnswer | libeXosip2-3.0.3-3/src/jcallback.c:1048-1074 | the first answer to the call's INVITE makes a dialog, which the INVITE then names |
| CallRequests.DialogMadeExactly | libeXosip2-3.0.3-3/src/jcallback.c:1048-1074 | that dialog field by field, if and only if the INVITE names none yet |
| CallRuns.RunsAreGood | libeXosip2-3.0.3-3/src/eXcall_api.c:39-1389 | in every run of API calls, requests, callbacks, timer steps and release passes: no transaction in two places, nothing in use freed, names inside the own dialog, reports to the own call, lists newest first, counts in 0..5, and only the first dialog of a call established |
| CallRuns.ReachedIsGood | libeXosip2-3.0.3-3/src/eXcall_api.c:39-1389 | so in every run from the empty start |
| CallRuns.StepInv | libeXosip2-3.0.3-3/src/udp.c:883-1128 | every event of a run adds at most its own new transaction to what is held, and only a release pass lets any go |
| CallRuns.StepSane | libeXosip2-3.0.3-3/src/jdialog.c:92-109 | no event makes a transaction of the future, or a lost-200 count outside 0..5 |
| CallRuns.StepHeaded | libeXosip2-3.0.3-3/src/jcallback.c:1042-1058 | every event leaves at most the first dialog of a call established, and then named by the call's own request; that request names the first dialog or none |
| CallFronts.ReleasePassHeaded | libeXosip2-3.0.3-3/src/udp.c:2146-2258 | so does the whole release pass |
| CallFronts.RetriedHeaded | libeXosip2-3.0.3-3/src/eXcall_api.c:1358-1370 | and a retry from any of its call sites |
| EXosip.Exosip.RetransmitCall | libeXosip2-3.0.3-3/src/eXosip.c:538-562 | the rewinding loop over the dialogs of a call ends; what it does is a run of timer events, and what is sent for each is the dialog's own 200 OK |
| CallFaults.OnlyFirstWaits | libeXosip2-3.0.3-3/src/eXosip.c:538-562 | in a run only the first dialog of a call can wait for an ACK |
| CallFaults.RunsSendOwn | libeXosip2-3.0.3-3/src/eXosip.c:552-560 | over every run, the first dialog's 200 OK, which is what is sent, is that of the dialog whose timer fired, and never NULL |
| Lost200.OthersUntouched | libeXosip2-3.0.3-3/src/eXosip.c:538-562 | a pass leaves every other dialog of the call as it is |
| EXosip.Exosip.RetransmitLost200Ok | libeXosip2-3.0.3-3/src/eXosip.c:525-567 | the whole loop ends, and where ids are unique every dialog's timer goes through one pass of Finish |
| Lost200.LateLess | libeXosip2-3.0.3-3/src/eXosip.c:552-559 | each rewind strictly lowers the number of dialogs whose timer is past |
| Lost200.GivenUpOnly | libeXosip2-3.0.3-3/src/eXosip.c:543-551 | where ids are complete and unique, giving up stops the timer of that dialog and no other |
| CallIds.RunsAreTidy | libeXosip2-3.0.3-3/src/eXosip.c:890-970 | over any run ids stay complete and unique while their counter is at most 100000 before each event |
| CallIds.ReachedIsTidy | libeXosip2-3.0.3-3/src/eXosip.c:890-970 | so from the empty start |
| CallIds.LookupsExactly | libeXosip2-3.0.3-3/src/jdialog.c:36-50 | every linked dialog with an id is found by it if and only if no two share one |
| CallIds.UpdatedDifferentExactly | libeXosip2-3.0.3-3/src/eXosip.c:890-970 | numbering keeps ids different if and only if no id it hands out is in use |
| CallIds.HandedOut | libeXosip2-3.0.3-3/src/eXosip.c:902-906 | what it hands out comes from the counter, or from 1 on once that is past 100000 |
| CallIds.WrapSharesId | libeXosip2-3.0.3-3/src/eXosip.c:902-903 | in a store that is in order, with the counter past 100000, a new call's dialog gets an id that is taken and is found in place of the other |
| CallIds.GivesUpAnother | libeXosip2-3.0.3-3/src/eXosip.c:543-551 | a dialog that is not found by its id is not closed when it is given up: the one that is found is, if a BYE can be sent in it |
| CallIds.WrapEndsAnother | libeXosip2-3.0.3-3/src/eXosip.c:543-551 | there, the missing ACK of the one call ends the other |
| Lost200.NothingDue | libeXosip2-3.0.3-3/src/eXosip.c:538-562 | after a pass, which is complete where ids are complete and unique, no dialog is due |
| CallHistory.FiresAtMostFiveTimes | libeXosip2-3.0.3-3/src/eXosip.c:538-562 | in every run without another 200 OK in the dialog, its timer fires at most five times in all less those before, first after the moment it is set to and then more than 4 seconds apart; without a 200 OK never |
| CallHistory.FiresAfterAnswer | libeXosip2-3.0.3-3/src/eXosip.c:538-562 | from a 200 OK on at most five times, first more than 2 seconds later |
| CallHistory.NeverFiresAfterAck | libeXosip2-3.0.3-3/src/udp.c:239-242 | from the ACK on never |

## Left out

- Rounding: samples of the filters and the jitter averages are real numbers; a filter output outside the 16-bit range wraps when it is cast to `short`, which C leaves undefined.
- Resample.Resampler.ResampleAudio: the resampling factor is the exact quotient, not a `float`.
- Resample.PickedIndexInRange: likewise; a product rounded to `float` may pick a neighbour.
- Integer widths of sizes and counters in memory, and `abs` of the smallest integer in the jitter estimate.
- RtpReceive.RtpSession.RtpParse: the signals to the application, SSRC reports, STUN contents and the clock-rate changes of other profiles are not modelled.
- RtpReceive.RtpSession.TakeMedia: the first synchronisation with the application's clock (`rtpsession.c:925-946`) is left to the caller.
- NonceTable.HttpAuths.AnswerResponse: MD5 and the text of the headers but for the nonce count are a parameter that says whether a header could be built.
- The format string that `_eXosip_store_nonce` makes of the call-id is taken to have no directive.
- The oSIP parser and transaction machines: a transaction is a record, and a step of its machine an event of a run that may set its state, completion time and response to anything.
- Subscriptions, in-subscriptions, publications, registrations, and what they share with calls. A SUBSCRIBE outside every dialog goes to them.
- EXosip.Exosip.ProcessCancel: the branches for an answer that cannot be built are not modelled; they file the target instead of the CANCEL.
- EXosip.Exosip.ProcessNewInvite: likewise for answers and dialogs that cannot be built.
- EXosip.Exosip.Terminate: the return codes, and failures to build a CANCEL or a BYE. The same holds for the other API functions: a refused call changes nothing.
- EXosip.Exosip.RemoveDialogReference: the search for the dialog in the call, which has no effect, is left out.
- EXosip.Exosip.RetransmitLost200Ok: the clock is read once a pass.
- EXosip.Exosip.CallFree: the nonces of the call, deleted at the same time, are the subject of the module NonceTable.
- The loop of `eXosip_automatic_action` around retries, but for the dialog it goes on from; a retry is an event of a run, from the places that make one, without the limits on their number.
- CallFaults.AutomaticFreesExactly: whether a dialog is early or confirmed; a callback closes an early one when its INVITE is rejected (`jcallback.c:1551-1565`), so that only a confirmed one gets there.
- EXosip.Exosip.ReleaseTerminatedCalls: the clock is read once a pass, by the source once a check.
- EXosip.Exosip.ProcessNewRequest: requests that belong to subscriptions and notifications are filed.
- Events reported to the application, messages and their transport, locks and wake-ups.
- Strict routing in `jrequest.c`, DNS, STUN, TLS, PSP devices and the text interface.
