# trecs: wire formats, transactions and call accounting, verified

A Dafny model of the parts of trecs (a SIP and RTP back-to-back user agent written in Go) that carry state and formats:

- the SIP, SDP, RTP and RTCP printers and parsers, with stream framing, header folding, compact names and size functions;
- the INVITE, non-INVITE and client transaction machines, their retransmission timers and reliable provisional responses;
- trunk channels and the calls that hold them, and the two-map index of calls;
- registration bindings, digest nonces and the authentication failure counter.

Each format has a module of specification functions (`Rtcp`, `Rtp`, `Sip`, `Sdp`), modules of theorems about them
(`...RoundTrip`, `...Reparse`; `...Wire` and `...Texts` say which octets and texts are read and printed, with the
numbers and letters of the standards) and, where the program works on buffers, readers or objects, a module of methods
proved against the same functions (`...Codec`). Each state machine is a step function with theorems over all its runs,
which include what every event does as a function of the events before it, and a class whose methods take exactly those
steps. A step is one critical section, timer callback, handler body or turn of a response loop; timer callbacks may come
at any time, however late. Messages handed to a transport are appended to a trace.

Text is modelled one `char` per octet, binary data as a `byte` subset type, Go's `int` as 64 bits. `Panic` stands for an
index out of range in the original. Everything random, the clock, hashes and the outcome of network calls are parameters.

What the theorems found where the code and a simpler reading differ:

- Size functions count no minus sign, so they are exact if and only if no printed number is negative
  (`SipRoundTrip.SizeExact`, `SdpRoundTrip.SizeExact`). With a negative CSeq, `Marshal` cuts the body or panics
  (`SipCodec.MarshalledParsesBack`).
- RTP parsing panics on exactly the version 2 packets that end inside their CSRC list (`RtpRoundTrip.PanicsExactly`).
- A completed INVITE transaction still sends a 2xx; a run sends at most one final response, repetitions aside, if and
  only if none is offered (`InviteServer.OneFinalExactly`). It also repeats the latest, not the first, final response
  (`InviteServer.RepeatsLatest`); a completed non-INVITE transaction still sends a 1xx
  (`NonInviteServer.ProvisionalsFirstExactly`).
- Transactions leave the table by branch. One that is still live is missing from it if and only if another one of its
  branch was registered or deleted the branch since, as a late timer H does (`TransactionTable.RegisteredExactly`,
  `TransactionTable.LateTimerWitness`).
- A trunk channel is lost when Alice's RTP address cannot be resolved after a 200 OK, and when an INVITE without an offer
  panics; with fresh Call-IDs the channel count is exact if and only if neither happened (`FreshCalls.Conservation`,
  `TrunkCalls.LossWitness`).
- An SDP text can parse to a description that does not survive printing: a port count below one, or an attribute with an
  empty value and an empty or blank-ended name (`SdpReparse.ParsePrintParse`, `SdpReparse.PortCountWitness`,
  `SdpReparse.EmptyTagWitness`).
- Reusing a Call-ID can break both the count and the index (`TrunkCalls.ReuseWitness`, `CallStore.ReuseWitness`). For runs
  with any Call-IDs, the count is off by exactly the drift that the guards of each step announce
  (`TrunkCalls.Accounting`), and the index stays consistent if and only if every call stored is storable at that point
  (`CallStore.ExactRuns`).
- A SIP message that was parsed does not survive printing exactly when it had no CSeq, when its start line or a header
  value ends with a bare line feed, or when a header name that starts with a blank is not printed first
  (`SipReparse.ParsePrintParse`).
- An RTP packet can parse to one that does not marshal: a one-byte extension element with ID 0 and a length
  (`RtpRoundTrip.ParsedWellFormedExactly`).
- The comment on `VerifyDigestRequest` says that it resets the failure counter; the code leaves that to its callers, and so
  does the model (`AuthFailures.Authenticator.Authenticate`).

## Model

| member | source | states |
|---|---|---|
| RtcpRoundTrip.CompoundRoundTrip | proto/rtcp.go:235-499 | Parsing a marshalled non-empty list of RTCP packets gives the same packets if and only if every packet's fields fit the bits that carry them, whatever was in the buffer before |
| RtcpRoundTrip.DeclaredLengthsPartition | proto/rtcp.go:519-560 | When parsing succeeds, the declared packet lengths cut the input into consecutive frames that make up all of it, and each packet is decoded from its own frame |
| RtcpRoundTrip.ChunksReadBack | proto/rtcp.go:634-672 | SDES chunks with their items, END markers and alignment decode to themselves, independent of old buffer contents |
| RtcpRoundTrip.OnlyWellFormedReadBack | proto/rtcp.go:562-712 | Whatever a packet decodes to satisfies the field limits, so a packet outside them never reads back |
| RtcpRoundTrip.ContentReadsBack | proto/rtcp.go:562-712 | Every well-formed SR, RR, SDES, BYE, APP or raw body decodes to itself under the header it is sent with |
| RtcpWire.ParsesExactly | proto/rtcp.go:501-712 | UnmarshalRTCP succeeds with a list of packets if and only if the octets, read at the offsets and with the type numbers of RFC 3550, say that list |
| RtcpWire.FrameExactly | proto/rtcp.go:562-712 | The same for one frame: a receiver report exactly where the second octet is 201, and so on for all types, each field at its offset |
| RtcpWire.ItemsExactly | proto/rtcp.go:644-663 | SDES items are read if and only if they stand one after the other up to a zero octet or the end of the packet |
| RtcpWire.ErrorKeepsFront | proto/rtcp.go:519-560 | Packets in front of a defect are returned together with the error it raises |
| RtcpWire.ErrorAtFront | proto/rtcp.go:501-538 | Which error a defect raises: less than a word, another version, a length beyond the input, or content that says nothing |
| RtcpWire.PrintsExactly | proto/rtcp.go:235-469 | Every packet, well-formed or not, prints version 2, its type number, its length in words minus one, and each field at its offset |
| Octets.BigEndian | proto/rtcp.go:235-242 | Numbers stand with their most significant octet first |
| Rtcp.ChunksSizeAligned | proto/rtcp.go:336-347 | The size of SDES chunks is a multiple of four |
| RtcpCodec.SourceDescriptionSize | proto/rtcp.go:336-347 | The size loop with its rounding after each chunk computes the exact size |
| RtcpCodec.MarshalSenderReport | proto/rtcp.go:251-280 | Refuses a small buffer unchanged; otherwise writes exactly the packet's octets, exactly its size, and nothing else |
| RtcpCodec.MarshalReceiverReport | proto/rtcp.go:295-316 | The same for receiver reports, whose octets `RtcpWire.PrintsExactly` fixes |
| RtcpCodec.MarshalSourceDescription | proto/rtcp.go:349-376 | The same for source descriptions, whose alignment gaps keep what the buffer held |
| RtcpCodec.MarshalGoodbye | proto/rtcp.go:393-413 | The same for BYE with its optional reason and padding, whose octets `RtcpWire.PrintsExactly` fixes |
| RtcpCodec.MarshalApplication | proto/rtcp.go:427-445 | The same for APP packets |
| RtcpCodec.MarshalRaw | proto/rtcp.go:457-469 | The same for packets of other types |
| RtcpCodec.MarshalTo | proto/rtcp.go:244-469 | Every packet type writes MarshalSize octets and stays inside a buffer of that size |
| RtcpCodec.MarshalRTCP | proto/rtcp.go:481-499 | Refuses the empty list; otherwise the concatenation of all packets in a zeroed buffer of their total size |
| RtcpCodec.UnmarshalItems | proto/rtcp.go:644-663 | The item loop, with every index in bounds, decodes up to the END marker or the first error |
| RtcpCodec.UnmarshalSourceDescription | proto/rtcp.go:634-672 | The chunk loop decodes what the recursive definition says, errors included |
| RtcpCodec.UnmarshalGoodbye | proto/rtcp.go:674-694 | Sources and optional reason, errors included |
| RtcpCodec.UnmarshalRTCP | proto/rtcp.go:519-560 | Total: on every octet string it terminates in bounds with the packets decoded so far and the first error, if any, both fixed by `RtcpWire` |
| RtpRoundTrip.RoundTrip | proto/rtp.go:66-364 | For a packet that marshals, parsing gives it back if and only if it is well-formed and, when padded, fills its buffer |
| RtpRoundTrip.ParseMarshalParse | proto/rtp.go:66-153 | Any data that parses to a packet that marshals: parsing the marshalled form gives that packet again |
| RtpRoundTrip.ParsedWellFormedExactly | proto/rtp.go:66-153 | A parsed packet is well-formed if and only if it would marshal |
| RtpRoundTrip.UnacceptedWitness | proto/rtp.go:178-199 | A packet that parses and would not marshal |
| RtpRoundTrip.PanicsExactly | proto/rtp.go:93-96 | The parser runs out of its input on exactly the version 2 packets shorter than their CSRC count announces |
| RtpRoundTrip.PanicWitness | proto/rtp.go:93-96 | One such packet |
| RtpRoundTrip.BlockReadsBack | proto/rtp.go:163-223 | Extension blocks under the one-byte, two-byte and profile-defined schemes decode to their elements through the alignment |
| RtpWire.ParsesExactly | proto/rtp.go:66-223 | UnmarshalRTP succeeds with a packet if and only if the octets, read at the offsets of RFC 3550 and under the extension schemes of RFC 8285 with zero octets between elements, say that packet |
| RtpWire.RefusesExactly | proto/rtp.go:66-153 | Which error refuses a packet |
| RtpWire.AcceptsExactly | proto/rtp.go:259-330 | Which packets marshal, by their number of sources and the IDs and lengths of their elements |
| RtpWire.PrintsExactly | proto/rtp.go:259-364 | Every packet that marshals prints each field at its offset, the alignment octets of its scheme, and its padding over any old buffer contents |
| RtpCodec.MarshalSize | proto/rtp.go:237-257 | The size loop computes the exact size |
| RtpCodec.MarshalTo | proto/rtp.go:259-364 | Refuses small buffers, more than 15 CSRCs and elements a scheme cannot carry; otherwise writes exactly the packet's octets |
| RtpCodec.Marshal | proto/rtp.go:226-235 | The same into a fresh buffer |
| RtpCodec.UnmarshalOneByteExtensions | proto/rtp.go:178-199 | The index loop equals the recursive definition of the one-byte scheme |
| RtpCodec.UnmarshalTwoByteExtensions | proto/rtp.go:201-223 | The same for the two-byte scheme |
| RtpCodec.ReusedPacket.UnmarshalFrom | proto/rtp.go:66-153 | A successful parse overwrites every field of the reused packet; a failed one leaves its payload |
| Text.CutAt | proto/sip.go:585-589 | The first separator decides where a text is cut |
| Text.LineReadsBack | proto/proto_read.go:41-47 | A text without line feeds, followed by CRLF and anything, is read back exactly, leaving the rest |
| Text.ContinuedLineReadsBack | proto/proto_read.go:49-67 | So it is through header folding, even with line feeds inside that only fold; an empty line is never continued, even before a blank |
| Readers.Reader.ReadLine | proto/proto_read.go:41-47 | Consumes one line; end of input is an error only when nothing was read |
| Readers.Reader.ReadContinuedLine | proto/proto_read.go:49-67 | The folding loop joins exactly the continuation lines, each to the trimmed line before it |
| Decimal.DecReadsBack | proto/sip.go:779-795 | A printed 64-bit number parses to itself |
| Decimal.AtoiReads | proto/sip.go:524-528 | Optional sign and digits are read as the number they write, within 64 bits |
| Decimal.AtoiOnly | proto/sip.go:524-528 | Nothing else is read as a number |
| Decimal.LeadingZero | proto/sip.go:524-528 | Zeros in front of digits do not count |
| Text.TrimSpaceDrops | proto/sdp.go:135-139 | ASCII white space around a text is dropped |
| Text.EncodedSpaceDrops | proto/sdp.go:135-139 | So are the encoded spaces beyond ASCII |
| Decimal.IntLen | proto/sdp.go:869-878 | The digit loop counts the printed width of non-negative numbers and nothing for negative ones |
| Ordering.OrderUnique | proto/sip.go:749-760 | A set of names has one sorted list, so map iteration order cannot show in what is printed |
| SipRoundTrip.RoundTrip | proto/sip.go:495-552 | For every well-formed message, in either style, and any trailing octets, streamed parsing gives back start line, header lists, CSeq and body and leaves exactly those octets; a datagram gives the same message |
| SipRoundTrip.StreamRoundTrip | proto/sip.go:480-493 | Any concatenation of printed messages, in any mix of styles, parses back to the same sequence, even when a body starts with a blank |
| SipRoundTrip.CompactPreservesMeaning | proto/sip.go:726-806 | Parsing the compact and the long form of a message gives equal messages |
| SipRoundTrip.CompactInverse | proto/sip.go:19-99 | The two name tables are inverse to each other |
| SipRoundTrip.CanonicalNotCompact | proto/sip.go:108-114 | No canonical name is a compact name |
| SipRoundTrip.CanonicalKeyIdempotent | proto/sip.go:108-114 | Canonical names stay as they are |
| SipRoundTrip.StartLineRoundTrip | proto/sip.go:584-623 | A printed start line parses to itself if and only if its fields fit the grammar |
| SipRoundTrip.HeadersReadBack | proto/sip.go:554-582 | Printed fields, of which only the first may have a name that starts with a blank, followed by an empty line parse to the map they fold into, and what follows is not touched |
| SipRoundTrip.FoldKeys | proto/sip.go:554-582 | Fields printed key by key rebuild exactly those header lists |
| SipRoundTrip.TruncatedBody | proto/sip.go:523-537 | A body shorter than announced is refused |
| SipRoundTrip.ReparsedStable | proto/sip.go:726-806 | Printing what was parsed back gives the same octets again |
| SipRoundTrip.SizeExact | proto/sip.go:663-696 | The announced size is the printed size if and only if the CSeq number is not negative, and how much is missing otherwise |
| SipReparse.RoundTripExactly | proto/sip.go:495-806 | For every message whatever, either style and any trailing octets, its printed text reads back as the message with CSeq and Content-Length regenerated, leaving those octets, if and only if it fits the grammar |
| SipReparse.SectionExactly | proto/sip.go:554-582 | Header fields as a parser yields them, printed one after the other, read back as they are if and only if no value ends in a line feed and no name but the first starts with a blank |
| SipReparse.HeadersAreParsed | proto/sip.go:554-582 | What a header section can yield: canonical names without colons, non-empty lists, no leading spaces, and line feeds only where a line was folded or at the end of a value |
| SipReparse.MergedDiffers | proto/proto_read.go:49-67 | A header line followed by a name that starts with a blank never yields its own value |
| SipReparse.ParsePrintParse | proto/sip.go:495-552 | For every octet string that parses, printing the message in either style and parsing it again loses nothing if and only if CSeq was there, neither its start line nor a value kept a line feed at its end, and no name but the first printed starts with a blank |
| SipReparse.ReparsedKeeps | proto/sip.go:726-806 | The regenerated message differs at most in its CSeq and Content-Length headers |
| SipReparse.NoCSeqWitness | proto/sip.go:515-521 | A request without CSeq parses, and its printed text does not |
| SipReparse.BareFeedWitness | proto/proto_read.go:41-47 | A header line that ends with a bare line feed parses, and the printed message does not read back |
| SipReparse.StartLineParsed | proto/sip.go:584-623 | A parsed start line prints to the line it came from |
| SipTexts.TextReads | proto/sip.go:495-552 | Every text with a well-formed start line and header section: which message it is and what is left, if and only if its CSeq and Content-Length values say so; a datagram without Content-Length is body to its end |
| SipTexts.TextRefused | proto/sip.go:515-549 | Which error refuses such a text, CSeq first: no length on a stream, a bad, negative or too large one |
| SipTexts.WithoutLength | proto/sip.go:540-549 | Without Content-Length a datagram gives back the whole rest as body, and a stream is refused |
| SipTexts.RequestLineExactly | proto/sip.go:584-623 | Three words are a request line if and only if the first is one of the fourteen methods and the last starts with SIP/; which error otherwise |
| SipTexts.StatusLineExactly | proto/sip.go:592-606 | The same for status lines |
| SipTexts.MethodsExactly | proto/sip.go:648-659 | The fourteen methods |
| SipTexts.SpacingIgnored | proto/sip.go:575-579 | Any number of spaces may follow the colon of a header |
| SipTexts.FoldJoins | proto/proto_read.go:49-67 | A line that starts with a space or tab is joined to the one before, less the blanks at its end |
| SipTexts.CaseIgnored | proto/sip.go:108-114 | Header names are the same whatever the case of their letters |
| SipTexts.TokensExactly | proto/sip.go:108-114 | Which octets make a name whose case is put in order |
| SipTexts.CompactForms | proto/sip.go:19-40 | The compact names of RFC 3261 and what they stand for |
| SipTexts.MoreCompactForms | proto/sip.go:19-40 | Those of its extensions |
| SipCodec.UnmarshalHeaders | proto/sip.go:554-582 | The header loop consumes one header section and yields its map, or the first error |
| SipCodec.Unmarshal | proto/sip.go:495-552 | The parser on a reader: message, remaining octets and error cases as `SipTexts.TextReads` and `SipTexts.TextRefused` fix them |
| SipCodec.UnmarshalBody | proto/sip.go:523-549 | Body by Content-Length, or all that is left for datagrams without one, as `SipTexts.WithoutLength` says of the text |
| SipCodec.KeysSizeOrder | proto/sip.go:674-685 | The header size does not depend on the order in which the map is walked |
| SipCodec.HeadersMarshalSize | proto/sip.go:674-685 | The walk in arbitrary order computes the size of the sorted print |
| SipCodec.MarshalSize | proto/sip.go:663-696 | The whole size, exact for non-negative CSeq numbers |
| SipCodec.CollectKeys | proto/sip.go:749-760 | Collected in any order and sorted, the names are the one sorted list |
| SipCodec.MarshalToImpl | proto/sip.go:726-806 | Writes the message at the front of the buffer, panics if the head does not fit, and cuts the body where the buffer ends |
| SipCodec.ValidateRequiredHeaders | proto/sip.go:698-709 | Accepts exactly messages with a start line and Via, From, To and Call-ID |
| SipCodec.Marshal | proto/sip.go:832-840 | Refuses incomplete messages; otherwise the printed message whenever the CSeq number is not negative |
| SipCodec.MarshalCompact | proto/sip.go:864-869 | The compact form, without asking for required headers |
| SipCodec.MarshalTo | proto/sip.go:820-829 | Refuses small buffers unchanged; otherwise writes exactly the announced size, or, with a negative CSeq number, panics if the head does not fit and cuts the body where the buffer ends |
| SipCodec.MarshalCompactTo | proto/sip.go:854-860 | The same for the compact form |
| SipCodec.MarshalledParsesBack | proto/sip.go:832-840 | What Marshal returns for a well-formed message parses back if and only if the CSeq number is not negative |
| SdpRoundTrip.RoundTrip | proto/sdp.go:109-202 | For every description that fits the grammar, parsing the printed text gives it back |
| SdpRoundTrip.LinesReadBack | proto/sdp.go:124-183 | Reading printed lines is applying them one by one, errors included |
| SdpRoundTrip.TimesRun | proto/sdp.go:234-249 | Each repeat returns under its own time line |
| SdpRoundTrip.MediaLinesRun | proto/sdp.go:262-286 | Each media-level line returns in its own media section |
| SdpRoundTrip.OriginReadsBack | proto/sdp.go:288-317 | A printed origin parses to itself |
| SdpRoundTrip.ConnectionReadsBack | proto/sdp.go:319-333 | A printed connection parses to itself |
| SdpRoundTrip.BandwidthReadsBack | proto/sdp.go:335-345 | A printed bandwidth parses to itself |
| SdpRoundTrip.TimeReadsBack | proto/sdp.go:347-365 | A printed time parses to itself |
| SdpRoundTrip.RepeatReadsBack | proto/sdp.go:367-397 | A printed repeat with at least one offset parses to itself |
| SdpRoundTrip.MediaReadsBack | proto/sdp.go:415-456 | A printed m= line gives back type, port, port count, protocol and formats |
| SdpRoundTrip.JoinSplits | proto/sdp.go:450-453 | Formats joined by spaces split into the same formats |
| SdpRoundTrip.EarlyRun | proto/sdp.go:204-220 | Applied in order, the printed lines from version to phone numbers fill exactly their own fields |
| SdpRoundTrip.LaterRun | proto/sdp.go:221-286 | So do those from connection to the last media section |
| SdpRoundTrip.SizeMeasures | proto/sdp.go:460-552 | The size added up field by field is what the printed lines measure with digits for numbers |
| SdpRoundTrip.SizeExact | proto/sdp.go:460-552 | So MarshalSize is the printed size if and only if no printed number is negative, and too small otherwise |
| SdpRoundTrip.JoinLenExact | proto/sdp.go:858-867 | The length announced for joined formats is the length of the joined text |
| SdpReparse.RoundTripExactly | proto/sdp.go:109-456 | For every description whatever, parsing its printed text gives it back if and only if it fits the grammar |
| SdpReparse.ParsePrintParse | proto/sdp.go:109-202 | For every text that parses, printing and parsing again gives the same description if and only if no empty-valued attribute or key has an unprintable name and every port count is at least one |
| SdpReparse.ParsedIs | proto/sdp.go:109-202 | Everything a successful parse yields fits the grammar, apart from those two points |
| SdpReparse.EmptyTagWitness | proto/sdp.go:407-413 | Any well-formed description without media, followed by an attribute line with neither name nor value, parses and does not read back |
| SdpReparse.PortCountWitness | proto/sdp.go:415-456 | Any well-formed description followed by a media line with a port count below one parses and does not read back |
| SdpReparse.MinimalWellFormed | proto/sdp.go:185-202 | A smallest well-formed description, to which both witnesses apply |
| SdpTexts.LinesDecide | proto/sdp.go:124-183 | A text is parsed as its lines without the white space around them: not their ends, nor blank lines between them, make a difference |
| SdpTexts.BlankLineIgnored | proto/sdp.go:135-139 | A blank line, ended by CRLF or a bare line feed, can be put between any two lines |
| SdpTexts.LineEndIgnored | proto/sdp.go:135-139 | A line may end in CRLF or a bare line feed, with any white space before it |
| SdpTexts.CompleteExactly | proto/sdp.go:109-202 | A text parses if and only if its lines do and it has one version line of version 0, a time line, a user name and a session name; which error otherwise |
| SdpTexts.KnownLetters | proto/sdp.go:204-286 | Which letters are known in front of the first media section and in one |
| SdpTexts.OriginSpaced | proto/sdp.go:288-317 | Fields of an origin may be set apart by any number of spaces |
| SdpTexts.ConnectionSpaced | proto/sdp.go:319-333 | The same for connections |
| SdpTexts.BandwidthSpaced | proto/sdp.go:335-345 | White space around type and value of a bandwidth is dropped |
| SdpTexts.TimeSpaced | proto/sdp.go:347-365 | White space around the stop time is dropped |
| SdpTexts.RepeatSpaced | proto/sdp.go:367-397 | Numbers of a repeat line may be set apart by any number of spaces |
| SdpTexts.MediaSpaced | proto/sdp.go:415-456 | The same for the fields of a media line |
| SdpTexts.PrintsExactly | proto/sdp.go:556-829 | Every description prints its lines with these letters, separators and order |
| SdpCodec.TimesMarshalSize | proto/sdp.go:494-503 | The nested loops over times, repeats and offsets |
| SdpCodec.JoinedLength | proto/sdp.go:858-867 | The loop over formats, separators counted first |
| SdpCodec.MediaMarshalSize | proto/sdp.go:519-550 | All terms of one media section |
| SdpCodec.MarshalSize | proto/sdp.go:460-552 | All terms and loops together; equal to the printed size exactly without negative numbers |
| SdpCodec.MarshalToImpl | proto/sdp.go:556-829 | Writes the whole description, or panics exactly when it does not fit |
| SdpCodec.MarshalTo | proto/sdp.go:833-839 | Refuses small buffers unchanged; a buffer of the announced size is never left when no number is negative |
| SdpCodec.Marshal | proto/sdp.go:842-847 | Succeeds with the printed text exactly when no printed number is negative |
| SdpCodec.UnmarshalRepeat | proto/sdp.go:367-397 | The offset loop of a repeat line |
| SdpCodec.Unmarshal | proto/sdp.go:109-202 | The line loop on a reader, with blank lines skipped and all error cases, as `SdpTexts.LinesDecide` and `SdpTexts.CompleteExactly` fix them |
| InviteServer.EveryRun | internal/sip/transaction.go:217-349 | In every run of an INVITE server transaction the rank never decreases, no provisional follows a final response, nothing answers the INVITE after a 2xx, and timer G and retransmissions send only status 300 or more |
| InviteServer.RankNeverDecreases | internal/sip/transaction.go:217-349 | The same for the rank, from any state with its invariant |
| InviteServer.SendsOrdered | internal/sip/transaction.go:217-349 | The order of what is sent, from any such state |
| InviteServer.SilentAfterAck | internal/sip/transaction.go:282-314 | After an ACK accepted in Completed the INVITE is never answered again |
| InviteServer.RepeatsAreFinal | internal/sip/transaction.go:333-349 | Whatever timer G or a repeated INVITE sends is 300 or more |
| InviteServer.SecondFinalWitness | internal/sip/transaction.go:242-253 | A 2xx after a 486 is sent and ends the transaction |
| InviteServer.OneFinalExactly | internal/sip/transaction.go:217-278 | A run sends at most one final response, repetitions aside, if and only if no 2xx is offered in Completed; it never sends more than two |
| InviteServer.RepeatsLatest | internal/sip/transaction.go:251-253 | In Completed the response to repeat is the latest non-2xx one offered |
| InviteServer.EveryCancelAnswered | internal/sip/transaction.go:534-616 | Over every run each CANCEL is answered exactly once, with 200 at first and with 481 from some point on; with 481 throughout once the transaction is confirmed, terminated or completed without CANCEL |
| InviteAnswers.AnswersExactly | internal/sip/transaction.go:217-278 | The answers to the INVITE over every run, repetitions aside, are the provisionals offered before the first final or other end, that final, and then a 2xx offered before the ACK and any other end |
| InviteAnswers.EverySend | internal/sip/transaction.go:217-616 | After every run, each event sends exactly what the events so far call for: repetitions the latest failure offered, CANCEL its 200, 487 or 481 |
| InviteAnswers.EveryRunSends | internal/sip/transaction.go:217-616 | So the whole of what a run sends is a function of its events |
| InviteAnswers.PhaseExactly | internal/sip/transaction.go:217-314 | So is its phase: Proceeding after a provisional other than 100, Completed, Confirmed by an ACK over an unreliable transport, Terminated otherwise |
| InviteServer.ArmsExactly | internal/sip/transaction.go:251-307 | Timers H and I start exactly on entering Completed and Confirmed |
| TransactionTable.RegisteredExactly | internal/sip/transaction.go:242-314 | Over every run of the table, a registered transaction is still in it if and only if it is live and no other one of its branch was registered or deleted the branch since |
| TransactionTable.EveryRegistration | internal/sip/transaction.go:439-505 | The same from the moment at which any transaction of a run is made |
| TransactionTable.RegisteredWhileLive | internal/sip/transaction.go:217-314 | With a branch of its own and without Stop, a transaction is in the table exactly while it is not terminated |
| TransactionTable.LateTimerWitness | internal/sip/transaction.go:242-271 | A 486, a 200 and the same INVITE again: timer H of the first transaction removes the live second one |
| TransactionTable.EachOnItsOwn | internal/sip/transaction.go:439-530 | Over every run of the table each transaction runs on what reaches it, as if it were alone |
| TransactionTable.TimersCounted | internal/sip/transaction.go:112-307 | How many end timers are still to run changes exactly with the steps that start one and with each callback |
| NonInviteServer.NonInviteRuns | internal/sip/transaction.go:85-140 | The rank never decreases and a terminated transaction sends nothing |
| NonInviteServer.RepetitionIsFinal | internal/sip/transaction.go:507-515 | A repeated request is answered with a final response that was sent before |
| NonInviteServer.ProvisionalsFirstExactly | internal/sip/transaction.go:85-140 | Provisionals precede finals in what a run sends if and only if none is offered after completion |
| NonInviteServer.LateProvisionalWitness | internal/sip/transaction.go:97-102 | A 100 offered after a 200 does go out |
| NonInviteServer.EveryNSend | internal/sip/transaction.go:85-140 | After every run, each event sends exactly what the events so far call for: every response offered in time, and to a repeated request the latest final one |
| NonInviteServer.NArmsExactly | internal/sip/transaction.go:103-138 | Timer J starts exactly with a final response that is sent |
| ServerTransactions.TransactionManager.HandleInvite | internal/sip/transaction.go:439-505 | A known branch repeats at most the response of its transaction, of either kind, and changes nothing else; a new one registers a transaction; all others are untouched |
| ServerTransactions.TransactionManager.HandleNonInvite | internal/sip/transaction.go:439-505 | The same for other requests, with a non-INVITE transaction |
| ServerTransactions.TransactionManager.HandleCancel | internal/sip/transaction.go:450-465 | CANCEL takes the transaction's step, or is answered 481 when none matches |
| ServerTransactions.TransactionManager.HandleAck | internal/sip/transaction.go:622-642 | ACK takes the step of the INVITE transaction it matches, which leaves the table only over a reliable transport; without a match nothing changes |
| ServerTransactions.InviteTransaction.Respond | internal/sip/transaction.go:217-278 | Takes the Respond step of the machine and sends what it says, which `InviteAnswers.EverySend` fixes |
| ServerTransactions.InviteTransaction.AckReceived | internal/sip/transaction.go:282-314 | Takes the ACK step |
| ServerTransactions.InviteTransaction.HandleRetransmission | internal/sip/transaction.go:516-523 | Takes the retransmission step |
| ServerTransactions.InviteTransaction.HandleCancelRequest | internal/sip/transaction.go:534-616 | Takes the CANCEL step, with or without a handler |
| ServerTransactions.InviteTransaction.TimerGFired | internal/sip/transaction.go:338-348 | Takes the timer G step; a response to repeat is always there |
| ServerTransactions.InviteTransaction.EndTimerFired | internal/sip/transaction.go:258-307 | Takes the step of timers H and I, and deletes its branch whoever is registered under it |
| ServerTransactions.NonInviteTransaction.Respond | internal/sip/transaction.go:85-140 | Takes the Respond step of the non-INVITE machine |
| ServerTransactions.NonInviteTransaction.HandleRetransmission | internal/sip/transaction.go:509-515 | Repeats the final response in Completed |
| ServerTransactions.NonInviteTransaction.TimerJFired | internal/sip/transaction.go:112-138 | Ends the transaction and deletes its branch, unless it was stopped |
| Client.EveryRun | internal/sip/uac.go:97-308 | In every run at most one ACK is sent, only for INVITE and only after a first final response of 300 or more; the response channel never exceeds its capacity |
| Client.AckExactly | internal/sip/uac.go:164-176 | One ACK if and only if the request is an INVITE and the first final response, arriving before any other end, is 300 or more |
| Client.RankNeverDecreases | internal/sip/uac.go:120-207 | The rank of the state never decreases |
| Client.NotRepeatedAfterResponse | internal/sip/uac.go:229-246 | Once a matching response has come in, the request is never sent again |
| Client.PendingWhileLive | internal/sip/uac.go:194-337 | A transaction is pending exactly while it is not terminated |
| ClientRuns.EverySend | internal/sip/uac.go:120-390 | After every run, each event sends exactly what the events so far call for: the request while nothing was heard, one ACK, CANCEL while no final response has come |
| ClientRuns.ReaderGets | internal/sip/uac.go:148-176 | The channel holds the matching responses that came in time and found room, in order, less those taken: the reader gets each of them once |
| ClientRuns.PendingExactly | internal/sip/uac.go:194-337 | A transaction is pending until the events call for its end |
| Client.UacTransaction.HandleResponse | internal/sip/uac.go:120-177 | Takes the response step of the machine |
| Client.UacTransaction.TimerAFired | internal/sip/uac.go:229-244 | Takes the timer A step |
| Client.UacTransaction.EndTimerFired | internal/sip/uac.go:194-277 | Takes the step of timers B and D |
| Client.UacTransaction.CancelTransaction | internal/sip/uac.go:328-337 | Takes the Cancel step |
| Backoff.EveryRun | internal/sip/transaction.go:328-349 | For every T1 and T2 = 8*T1 under an ideal clock, at most ten repetitions happen before 64*T1 and no shift exceeds 1024*T1 |
| Backoff.TenReached | internal/sip/transaction.go:328-349 | Ten repetitions are reached, for every T1 |
| Backoff.TimeoutReached | internal/sip/transaction.go:258-271 | The time-out comes 64 times T1 after the start, for every T1 |
| Backoff.TimeoutOnce | internal/sip/transaction.go:258-271 | It comes at no other time, and nothing is repeated after it |
| TimedTransactions.ServerCounterBounded | internal/sip/transaction.go:258-349 | gCount of a completed INVITE transaction stays within ten under an ideal clock |
| TimedTransactions.ServerStarts | internal/sip/transaction.go:258-275 | Entering Completed by Respond or by CANCEL starts the back-off |
| TimedTransactions.ClientCounterBounded | internal/sip/uac.go:209-279 | retxCount of a client transaction stays within ten under an ideal clock |
| TimedTransactions.ClientStarts | internal/sip/uac.go:97-118 | Send starts the back-off |
| Reliable.EveryRun | internal/sip/reliable.go:55-242 | In every run, late timer callbacks included, an entry's sent RSeqs are 1, 2, 3 and so on up to its counter, each earns at most one 200 to PRACK, at most six retransmissions follow each send, and the timeout runs at most once and never together with Cancel |
| Reliable.PendingExactlyWhileNotDone | internal/sip/reliable.go:55-242 | An entry is not done if and only if its Call-ID leads to it |
| Reliable.StepIndexed | internal/sip/reliable.go:55-242 | Every step keeps that agreement |
| ReliableRuns.PrackExactly | internal/sip/reliable.go:104-172 | A PRACK is answered 200 if and only if it names a number sent for the live entry of its Call-ID and not acknowledged yet, with the CSeq and method of the INVITE; else 481, or 400 without Call-ID |
| ReliableRuns.SendExactly | internal/sip/reliable.go:55-102 | Every send goes out with the next number of the live entry of its Call-ID, or with number 1 of a new one |
| ReliableRuns.TimerExactly | internal/sip/reliable.go:198-242 | A timer of a live entry repeats the latest number, or gives up at its seventh callback since that was sent |
| ReliableRuns.TimerSilent | internal/sip/reliable.go:204-208 | Timers of other entries do nothing |
| ReliableRuns.CancelExactly | internal/sip/reliable.go:174-185 | Cancel drops exactly the live entry of its Call-ID |
| Reliable.Manager.Send | internal/sip/reliable.go:55-102 | Takes the send step |
| Reliable.Manager.HandlePrack | internal/sip/reliable.go:104-172 | Takes the PRACK step; answers 200 exactly to an outstanding RSeq with matching CSeq and method |
| Reliable.Manager.CancelPending | internal/sip/reliable.go:174-185 | Takes the cancel step |
| Reliable.Manager.RetransmitTimerFired | internal/sip/reliable.go:204-241 | Takes the timer step |
| TrunkCalls.Accounting | internal/b2bua/handler.go:701-1209 | For every run, with Call-IDs reused in any way, the active calls of a trunk are its response loops plus its stored calls plus the drift, so exact if and only if the drift is zero; a non-zero limit is never exceeded |
| TrunkCalls.StepAccounts | internal/b2bua/handler.go:701-1209 | Each handler body and loop turn changes the difference by exactly what its guards announce beforehand |
| FreshCalls.Conservation | internal/b2bua/handler.go:701-1209 | With fresh Call-IDs, the active calls of a trunk are its response loops plus its stored calls plus the losses, and so exactly the live calls if and only if nothing was lost |
| FreshCalls.DriftIsLoss | internal/b2bua/handler.go:701-1209 | With fresh Call-IDs, a step drifts by one if it is a loss and not at all otherwise |
| FreshCalls.StepKeeps | internal/b2bua/handler.go:701-1209 | Every handler body and loop turn keeps that balance and the uniqueness of identifiers |
| FreshCalls.LossesCounted | internal/b2bua/handler.go:1061-1067 | The losses are exactly the 200 OKs with an unresolvable Alice and the INVITEs without an offer |
| FreshCalls.LoopExit | internal/b2bua/handler.go:909-975 | A loop leaves with its channel stored, lost, or released by exactly one |
| FreshCalls.CallExit | internal/b2bua/handler.go:1714-1719 | A stored trunk call leaves only by BYE or its session timer, and takes exactly one off its trunk's count |
| FreshCalls.TimerFindsOwn | internal/b2bua/handler.go:1150-1209 | A session timer finds its own call or none |
| CallLives.CallExactly | internal/b2bua/handler.go:701-1209 | Every trunk call of every run with fresh Call-IDs: from the events after its INVITE alone it follows whether it has a response loop and whether it is stored |
| CallLives.LifeStarts | internal/b2bua/handler.go:701-875 | An INVITE that can be set up gets a response loop and one channel if and only if its trunk is known and has a channel left; else nothing changes |
| CallLives.CancelCancels | internal/b2bua/handler.go:1761-1811 | A CANCEL that comes while the response loop of its call is there keeps the call out of the store at every later point of the run |
| CallLives.CancelledExit | internal/b2bua/handler.go:928-992 | A cancelled loop leaves with exactly one channel given back, and nothing stored or lost |
| TrunkCalls.LossWitness | internal/b2bua/handler.go:1061-1067 | A run after which a channel is in use and nothing holds it |
| TrunkCalls.ReuseWitness | internal/b2bua/call.go:67-72 | Two calls under one Call-ID leave a channel in use after BYE |
| TrunkHandler.TrunkManager.AcquireChannel | internal/trunk/manager.go:351-368 | Succeeds exactly for a known trunk that is unlimited or below its limit, and then adds one |
| TrunkHandler.TrunkManager.ReleaseChannel | internal/trunk/manager.go:370-376 | Takes one off, never below zero |
| TrunkHandler.Handler.HandleTrunkInvite | internal/b2bua/handler.go:701-875 | Takes the INVITE step: every early return gives the channel back, except the panic without an offer |
| TrunkHandler.Handler.SendInvite | internal/b2bua/handler.go:909-916 | Takes the sending step of a loop |
| TrunkHandler.Handler.EndLoop | internal/b2bua/handler.go:921-975 | Takes the steps of a cancelled and of a timed-out loop |
| TrunkHandler.Handler.HandleTrunkResponse | internal/b2bua/handler.go:928-1148 | Takes the response step of a loop, through handleTrunk200OK |
| TrunkHandler.Handler.HandleBye | internal/b2bua/handler.go:1642-1719 | Takes the BYE step |
| TrunkHandler.Handler.HandleCancel | internal/b2bua/handler.go:1761-1811 | Takes the CANCEL step, whose effect on the rest of a run `CallLives.CancelCancels` states |
| TrunkHandler.Handler.TrunkSessionTimer | internal/b2bua/handler.go:1150-1209 | Takes the session timer step |
| CallStore.ExactRuns | internal/b2bua/call.go:66-99 | bobToAlice stays the inverse of calls throughout a run if and only if every call stored is storable at that point |
| CallStore.StoreExact | internal/b2bua/call.go:67-72 | Storing a call keeps the two maps inverse if and only if Alice's identifier is not empty, differs from Bob's, no other call carries either, and a call of the same Alice has the same Bob |
| CallStore.FreshStorable | internal/b2bua/call.go:67-72 | A call whose identifiers no stored call carries is always storable |
| CallStore.EveryRun | internal/b2bua/call.go:66-99 | After every such run Get succeeds exactly for the identifiers that stored calls carry |
| CallStore.GetIsSearch | internal/b2bua/call.go:75-85 | Get returns the one stored call that carries the identifier on either leg |
| CallStore.ReuseWitness | internal/b2bua/call.go:67-72 | With a reused identifier, Get returns a call that does not carry it |
| CallStore.CallTable.Store | internal/b2bua/call.go:67-72 | Stores under both identifiers |
| CallStore.CallTable.Find | internal/b2bua/call.go:75-85 | Looks up by either identifier; agrees with a search |
| CallStore.CallTable.Remove | internal/b2bua/call.go:88-99 | Removes both entries of a call |
| Registrations.RunKeeps | internal/sip/registrar.go:189-246 | In every reachable state no address has an empty list or two bindings with one contact |
| Registrations.StepRefines | internal/sip/registrar.go:189-246 | Every step acts on the lists as on maps from contact to binding |
| Registrations.ContactsRefine | internal/sip/registrar.go:225-235 | The contact loop of a REGISTER equals the in-order map updates and removals |
| Registrations.UpsertRefines | internal/sip/registrar.go:472-502 | An upsert updates the map, keeps the order and appends what is new |
| Registrations.WithoutRefines | internal/sip/registrar.go:463-470 | A removal removes from the map and keeps the order of the rest |
| Registrations.FilterRefines | internal/sip/registrar.go:504-521 | Filtering a list filters its map |
| Registrations.KeptRefines | internal/sip/registrar.go:103-119 | Sweep and flow removal keep exactly the bindings they should, in order |
| Registrations.AcceptedInOrder | internal/sip/registrar.go:191-242 | Accepted changes under one Call-ID, however far apart, have strictly increasing CSeq |
| RegistrationRuns.BindingExactly | internal/sip/registrar.go:103-246 | After every run the binding of a contact is what the events call for: it expires at its own expires parameter or else the default, zero removes it, a sweep keeps it exactly if that is later, its flow closing removes it |
| RegistrationRuns.ChangesExactly | internal/sip/registrar.go:189-246 | A REGISTER is accepted if and only if its CSeq is above the last one accepted under its Call-ID |
| Registrar.RemoveBinding | internal/sip/registrar.go:463-470 | The list without the first binding of that contact |
| Registrar.UpsertBinding | internal/sip/registrar.go:472-502 | Refreshes the binding object of that contact in place, or appends a new one |
| Registrar.UpdateContacts | internal/sip/registrar.go:225-235 | The contact loop over binding objects |
| Registrar.BindingTable.HandleRegister | internal/sip/registrar.go:189-243 | Takes the REGISTER step on the objects and answers 400 exactly out of order or for a star without Expires 0 |
| Registrar.BindingTable.Sweep | internal/sip/registrar.go:504-521 | Takes the sweep step, in any order of addresses |
| Registrar.BindingTable.RemoveBindingsByFlowId | internal/sip/registrar.go:103-119 | Takes the flow removal step, in any order of addresses |
| Registrar.BindingTable.GetBindings | internal/sip/registrar.go:89-99 | Returns fresh copies that the registrar does not reach |
| Registrar.BindingTable.SnapshotSurvives | internal/sip/registrar.go:89-119 | A returned list stays as it was through any later run of REGISTER, sweep and flow removal steps, which the table takes |
| Nonces.CountsIncrease | internal/sip/nonce.go:43-63 | The accepted counts of a nonce strictly increase, so no pair is accepted twice |
| Nonces.NotAfterExpiry | internal/sip/nonce.go:43-63 | No count is accepted after the nonce's time to live, and zero never |
| Nonces.EveryRun | internal/sip/nonce.go:66-75 | Under a non-decreasing clock, sweeps never change which Verify calls are valid |
| Nonces.AcceptedExactly | internal/sip/nonce.go:43-63 | Under a non-decreasing clock a count is accepted if and only if the nonce was issued, is within its time to live, and came with no such or higher count since; it is known from issue until found expired |
| Nonces.NonceManager.Check | internal/sip/nonce.go:43-63 | Reports and updates as defined |
| Nonces.NonceManager.SweepExpired | internal/sip/nonce.go:66-75 | Removes exactly the expired entries |
| AuthFailures.EveryRun | internal/sip/auth.go:142-172 | Between sweeps and for every limit, a failure gets 403 exactly when it is the limit-th of its session since the last success or lockout, a challenge otherwise; stored counts stay from one to limit minus one |
| AuthFailures.AnsweredExactly | internal/sip/auth.go:78-172 | Every request of every run, sweeps included: a failure gets 403 if and only if it makes the limit, counting those in a row since the last success, lockout or late sweep; otherwise a fresh challenge |
| AuthFailures.OthersUntouched | internal/sip/auth.go:370-379 | Requests without credentials, and other sessions, never change a counter |
| AuthFailures.AttemptTracker.Record | internal/sip/auth.go:78-89 | Counts one more and refreshes the expiry |
| AuthFailures.AttemptTracker.SweepExpired | internal/sip/auth.go:110-119 | Removes exactly the expired counters |
| AuthFailures.Authenticator.SendFailure | internal/sip/auth.go:142-172 | Challenge with a fresh nonce below the limit, reset and 403 at it |
| AuthFailures.Authenticator.VerifyDigestRequest | internal/sip/auth.go:363-431 | Returns credentials exactly when all checks pass; any failure is counted once; a checked nonce count is used up even when the digest is wrong |
| AuthFailures.Authenticator.Authenticate | internal/b2bua/handler.go:136-154 | The whole attempt moves the counter as the run theorem assumes: success resets, a forbidden address counts as failure |

## Left out

- Sockets, transports, keepalive and the RTP connections: sending is an entry in a trace, and whether a send succeeds is a parameter.
- Locking below the level of a critical section; two handlers that interleave inside their bodies (a BYE racing a session timer) are not modelled.
- Hashes, random tags, branches, Call-IDs and nonces: fresh values and uninterpreted predicates.
- SIP addresses, Via parameters and the texts of headers built by the handlers.
- Contact header parsing in the registrar: contacts arrive parsed.
- Allocation failure for a Content-Length larger than memory.
- The pool of buffered readers: a reader holds all octets to come, and an error other than end of input does not occur.
- Media: bridges, sessions, WAV files and codecs; dial plan, logging, configuration loading and trunk registration.
- TransactionManager.Stop and UACManager.Stop as methods: the machines have the step, the classes do not.
- TransactionTable: an end timer ends its transaction and deletes the branch in one step, although the callback takes two locks one after the other.
- SdpCodec.Unmarshal: the description under construction is a value, so the pointer to the current media section is its position.
- Reliable.Manager: pointers to entries are positions in the list of all entries.
- RAck header parsing and case folding of the PRACK method: the event carries their outcome.
