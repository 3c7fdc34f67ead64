# A Dafny model of the sandbox proxy and its command line

The repository runs coding agents in containers behind a filtering HTTP proxy. This project models the
parts whose correctness is a protocol rather than a formula: the proxy's HTTP/1 body pipeline, the two
shutdown protocols of the command line, the bounded resources, and the policy that both components share.
`dafny verify dfyconfig.toml` verifies all of it.

## What is modelled

**The body pipeline.** A downstream connection is one fixed buffer with two cursors
(`http1_connection.dfy`). A resumable decoder turns its octets into frames (`body_decoder.dfy`), a
writer re-frames them toward the origin (`request_writer.dfy`), a second decoder reads the answer
(`origin_body.dfy`), one exchange decides whether the origin may be used again (`exchange.dfy`), and the
whole way of a request from the client's octets to the origin's is put together in `forwarding.dfy`.
Heads are read, parsed and rewritten in `head_reader.dfy`, `request_head.dfy`, `origin_head.dfy` and
`headers.dfy`. All of it is measured against one function of the octet stream, `ChunkedGrammar.Decode`,
which is itself proved equal to the syntax trees of section 7.1 of RFC 9112 (`chunked_grammar.dfy`).

**The network is an adversary** (`wire.dfy`). A `Source` holds the octets that will arrive before the
stream ends or fails; each read delivers any non-empty part of them, and each read or write may be
dropped, as `select!` drops the losing future. A `Sink` accepts any part of a write, or breaks. Loops that
in the source run until something happens take the number of polls as a parameter, so that every
statement about them covers every finite run, abandoned ones included.

**Two shutdown protocols as interleaved steps.** `signal_control.dfy` has the run path against the SIGTERM
thread, sharing a gate, a flag and take-once slots; `broker_lifecycle.dfy` has the accept thread, any
number of workers and two callers of `stop`. One step is one critical section, one atomic access or one
call of the engine; what the engine, the listener and the clients do is free. A behaviour is any sequence
of steps, and the main results quantify over all of them.

**Bounded resources.** `idle_pool.dfy` is the pool's class over its hash map, whose ghost queue it
refines; `upstream_permits.dfy` interleaves the semaphore, the counter and the pool.

**Policy.** `policy_layers.dfy` and `policy_store.dfy` have layer resolution and batch deny;
`policy_runs.dfy` has publication, reaping and crashing holders as steps over an atomic directory;
`policy_files.dfy`, `loopback_authority.dfy`, `domain_matching.dfy` and `target_authority.dfy` have the
texts that one component writes and the other reads. `calendar.dfy` and `clean_path.dfy` are two
self-contained algorithms.

Classes, loops and buffers of the source are classes, loops and arrays here, each tied by its
contract to a function of its input or of the octet stream; the laws are lemmas about those functions.

## Where the code does not do what one might expect

- A completed teardown does not imply that the proxy has stopped, because the `done` flag is set before the
  action runs (`cli/src/run.rs:357-361`). `SignalControl.StopOutlivesTeardown` is such a behaviour, and
  `StopOutlivesIff` says from which positions of the run path it can happen.
- A trailer with an empty value is queued as a write of no octets, and a write that accepts no octets is a
  failure (`proxy/src/connect/forward.rs:442-448`, `529-534`). `RequestWriting.EmptyTrailerCannotBeSent` is an
  accepted body that no run completes; by `ForwardBody`, a finished request has no empty value among its
  forwarded trailers, and the writing side fails only for such a value (`CannotBeSent`) or because the
  network refused.
- Re-framed trailers get `": "` between name and value, so the section sent can be longer than the one
  received. `RequestWriting.LongTrailerOutgrowsTheLimit` is an accepted body whose re-framing the proxy's own
  parser refuses; by `Reframed`, a receiver decodes what was sent exactly when `SectionLength` of the
  forwarded trailers is within its limit, and refuses it as too large otherwise.
- The two body decoders agree on every payload, but not on all trailers: four names are refused in responses
  only (`OriginBodies.DecodersAgree`).

## Assumptions

- An octet is a `char`. The parsers compare octets with ASCII constants only.
- A header map takes lower-case names to value lists; the order of different names is not modelled, since
  removal may permute it. Where the source iterates over a map, the statements hold for every order.
- A `HeaderName` is a token lowered to lower case, a `HeaderValue` any value without control octets other
  than tab. Whether a text is a URI authority is the parameter `isAuthority`.
- IPv6 parsing and printing are parameters; what is needed of them is `ReadsLoopback` and
  `Faithful`. An `Ipv4Addr` that prints back as its input is taken to be a canonical dotted quad.
- The digest that names a project's directory is an arbitrary value. `Label` stands for the strings of a
  deny report.
- `OriginReader` has the fields and the read-ahead rule of the downstream connection, and is modelled by
  the same class.
- `forwarding.dfy` takes the host and the target that routing has chosen as parameters.
- A socket that `stop` has shut down returns from the blocking calls of its worker; a dial ends by its own
  deadline.
- The clock of the pool is monotone. Run names, made of a process id and a time, are not used twice.
- The engine creates an agent or reports failure; a failed creation leaves no agent.

## Model

| member | source | states |
|---|---|---|
| `Quoting.SplitQuotedScan` | proxy/src/server/http1.rs:983-1005 | The single pass with its start index and two flags returns exactly the pieces, or the unbalanced-quote error, that the state of quoting at each octet determines. |
| `Quoting.SplitQuotedMeaning` | proxy/src/server/http1.rs:983-1005 | The split succeeds exactly when quotes and escapes are balanced at the end; joining the pieces with the delimiter restores the input, and no piece contains the delimiter outside quotes. |
| `Numerals.ReadU64Exact` | proxy/src/server/http1.rs:852-857 | The checked multiply-and-add fold accepts a numeral exactly when its unbounded value is below 2^64, and then returns that value. |
| `Numerals.PrintThenRead` | proxy/src/connect/forward.rs:296-299 | Printing any u64 in base 2 to 16 and reading it back is the identity. |
| `ChunkedGrammar.ParseChunkSizeExact` | proxy/src/server/http1.rs:1251-1279 | A chunk-size line is accepted with a size exactly when its quoted parts balance, every extension is valid and the hexadecimal numeral has that unbounded value below 2^64. |
| `ChunkedGrammar.ChunkSizeRoundTrip` | proxy/src/connect/forward.rs:482-486 | The printed hexadecimal size, as a chunk-size line, is read back as the size that was printed. |
| `ChunkedGrammar.DecodeIffGrammar` | proxy/src/server/http1.rs:1086-1158 | As a function of the stream, the decoder succeeds exactly on renderings of the chunked-body syntax tree of section 7.1 of RFC 9112 within the line and trailer limits, with exactly the tree's data, trailers and remainder. |
| `ChunkedGrammar.GrammarDecoded` | proxy/src/server/http1.rs:1086-1158 | Every syntax tree, whatever the length of its trailer section, decodes to its data and then, exactly when the section fits the limit, to its trailers; a section that does not fit is refused as too large. |
| `ChunkedGrammar.TrailersOverlong` | proxy/src/server/http1.rs:1208-1249 | A trailer section longer than the limit is refused as too large wherever in it the limit falls, never as malformed or truncated. |
| `ChunkedGrammar.GrammarComplete` | proxy/src/server/http1.rs:1086-1158 | Every syntax tree within the limits, followed by anything, decodes to its data, its trailer map and what follows. |
| `ChunkedGrammar.GrammarSound` | proxy/src/server/http1.rs:1086-1158 | Whatever decodes successfully is the rendering of a syntax tree within the limits. |
| `ChunkedGrammar.DecodeIgnoresWhatFollows` | proxy/src/server/http1.rs:1086-1158 | Octets after a body never change its decoding: the next message starts at the very next octet. |
| `ChunkedGrammar.PrefixTruncated` | proxy/src/server/http1.rs:1086-1158 | Bodies are self-delimiting: on every strict prefix of a body the decoder reports an incomplete message and has delivered a prefix of the payload, so no prefix is ever a shorter message. |
| `ChunkedGrammar.DecodePiece` | proxy/src/server/http1.rs:1097-1131 | Delivering any first piece of the data now and the rest later gives the outcome of the whole. |
| `ChunkedGrammar.TrailersStayWellFormed` | proxy/src/server/http1.rs:1208-1249 | Every trailer map that is decoded has lower-case token names, trimmed printable values and no empty value list. |
| `HttpText.ValidateLineEndings` | proxy/src/server/http1.rs:554-564 | The scan accepts exactly the octets with no bare LF and no CR followed by anything but LF. |
| `HttpText.FindCrlfFacts` | proxy/src/server/http1.rs:573-575 | The search finds a position exactly when there is a CRLF, and then the first one. |
| `HttpText.CutRendered` | proxy/src/server/http1.rs:1183-1206 | A rendered line within the limit is cut back off exactly, whatever follows. |
| `HttpText.CutOfPrefix` | proxy/src/server/http1.rs:1183-1206 | A prefix of a stream either contains its first line whole or is an unfinished line. |
| `Http1Connection.Connection.Compact` | proxy/src/server/http1.rs:462-471 | Moving the unread octets to the front changes the cursors and nothing that is unread. |
| `Http1Connection.Connection.ReadMoreUntil` | proxy/src/server/http1.rs:473-491 | One read appends at most 8192 octets, never past the limit, loses nothing when it is dropped, and reports no progress only at the limit or at the end of the stream. |
| `Http1Connection.Connection.ReadBodyLine` | proxy/src/server/http1.rs:1176-1206 | For every split into reads the result is the first line of the whole stream, or the error the whole stream determines; a dropped call leaves the stream as it was. |
| `Http1Connection.Connection.SeekLine` | proxy/src/server/http1.rs:1216-1248 | The trailer loop's search finds the first line of the whole stream or tells apart a bad ending, an overlong line and a truncated one, and keeps read-ahead within one step of the last line end. |
| `Http1Connection.Connection.ReadBodyData` | proxy/src/server/http1.rs:493-518 | Buffered octets are delivered first and in order, a read bypasses the buffer only when it is empty, and a piece plus what stays unread is within the frame limit or was already buffered. |
| `Http1Connection.Connection.EnsureBuffered` | proxy/src/server/http1.rs:520-539 | Buffers the octets asked for unless the stream ends before, without consuming any and without reading further. |
| `Http1Connection.LineLeavesReadAhead` | proxy/src/server/http1.rs:477-483 | After any completed line at most 8192 octets of read-ahead remain. |
| `BodyDecoding.BodyDecoder.NextFrame` | proxy/src/server/http1.rs:1086-1158 | Each frame is the next piece of the outcome the whole stream determines; dropping the call at any await loses nothing; every buffered trailer octet plus every unread octet stays within 65536; data frames are never empty. |
| `BodyDecoding.BodyDecoder.ReadBodyTrailers` | proxy/src/server/http1.rs:1208-1249 | Trailer lines are consumed and recorded one by one so that a drop between them changes nothing; the section's map, its limit and its error are those of the whole stream. |
| `BodyDecoding.BodyDecoder.FinishTrailers` | proxy/src/server/http1.rs:1141-1155 | Forbidden trailer names are refused, an empty map ends the body, any other map is one trailer frame, and the body is complete at the very next octet. |
| `BodyDecoding.ReadBody` | proxy/src/server/http1.rs:1086-1158 | Any number of calls, any of them dropped, against any split of the stream: concatenated payload, trailers, error kind and the octet after the body are functions of the stream alone. |
| `HeadReading.ReadHead` | proxy/src/server/http1.rs:290-362 | Reading a head is a function of the stream, resumable after every drop; a head that is read leaves at most 8192 surplus octets and the next octet is the body's first. |
| `HeadReading.SeekRequestLine` | proxy/src/server/http1.rs:297-331 | The request line is judged octet by octet as it arrives, with the verdict the whole stream determines, including the clean end between requests. |
| `HeadReading.SeekSectionEnd` | proxy/src/server/http1.rs:333-354 | The header section ends at the first empty line, is refused past 65536 octets, and read-ahead beyond its end is at most 8192 octets. |
| `HeadReading.SectionEndFacts` | proxy/src/server/http1.rs:581-589 | The end of the section is found exactly when there is one, and then the first one. |
| `Headers.FieldRoundTrip` | proxy/src/server/http1.rs:759-786 | A printed field line is parsed back to the same name and value. |
| `Headers.ParsedFieldGood` | proxy/src/server/http1.rs:759-786 | Whatever is parsed has a lower-case token name and a trimmed value without control octets. |
| `Headers.SanitizeHopByHop` | proxy/src/headers.rs:31-41 | Removing Connection, then the nominated names, then the fixed names leaves exactly the fields that are not hop-by-hop; a malformed Connection fails instead. |
| `Headers.SanitizedMeaning` | proxy/src/headers.rs:31-56 | Nothing hop-by-hop survives, every other field survives value for value, and sanitizing again changes nothing. |
| `Headers.OwnedFields` | proxy/src/connect/forward.rs:564-588 | The peeking loop gives every value its name; neither of its two expectations can fail. |
| `Headers.OwnedFieldsDenoteMap` | proxy/src/connect/forward.rs:564-588 | In whatever order the map iterates, the flat list denotes exactly the map and has exactly its octets. |
| `Headers.KeptTrailers` | proxy/src/connect/forward.rs:491-497 | Sanitizing trailers and dropping the nominated names never adds octets and never breaks a field. |
| `Headers.RenderedSectionLength` | proxy/src/connect/forward.rs:509-540 | A printed trailer section is as long as its map requires, in whatever order it was printed: name and value octets, four for each value, and two. |
| `RequestHeads.ParseFieldsLoop` | proxy/src/server/http1.rs:737-757 | The cursor loop parses the section line by line as the recursive reading of it does, refusing anything after the empty line. |
| `RequestHeads.FieldsRoundTrip` | proxy/src/server/http1.rs:737-757 | Printed fields and their empty line are parsed back to the map they denote. |
| `RequestHeads.AgreedLengthExact` | proxy/src/server/http1.rs:843-865 | Content-Length is accepted exactly when there is a member, every member is a decimal numeral of one and the same unbounded value, and that value is below 2^64. |
| `RequestHeads.SerializeRequestHead` | proxy/src/connect/forward.rs:262-319 | What is printed is the request line with the origin-form target followed by fields that denote the rewritten header map. |
| `RequestHeads.RewriteHeaders` | proxy/src/connect/forward.rs:278-306 | Editing the copied map step by step gives the rewritten header map. |
| `RequestHeads.RewrittenMeaning` | proxy/src/connect/forward.rs:278-306 | Name by name, what the origin sees: the given Host once, Via extended, the framing field of the head, no hop-by-hop or nominated field, no Expect from HTTP/1.0, and every other field value for value. |
| `RequestHeads.RequestLineRoundTrip` | proxy/src/connect/forward.rs:309-315 | The printed request line is parsed back to the same method and target. |
| `RequestHeads.ForwardedHead` | proxy/src/connect/forward.rs:262-319 | For every accepted head and valid host, parsing the printed head gives the same method and the same body framing, exactly the given Host, and the header map the origin is meant to see. |
| `RequestWriting.RequestWriter.constructor` | proxy/src/connect/forward.rs:413-422 | A new writer owes the origin the whole body the stream holds and has sent none of it. |
| `RequestWriting.RequestWriter.WritePending` | proxy/src/connect/forward.rs:441-456 | One write advances by what was accepted, so that accepted and owed octets still spell what was fetched; a dropped write changes nothing; a failure means that the network refused or that a forwarded trailer has an empty value. |
| `RequestWriting.RequestWriter.StepUpstream` | proxy/src/connect/forward.rs:437-465 | A successful step sends at least one octet or completes the request, and a completed request has been flushed; any other step sends nothing. |
| `RequestWriting.RequestWriter.StepDownstream` | proxy/src/connect/forward.rs:467-546 | One step fetches and queues the next piece; it fails only when the body itself is malformed, and then only after all of its data was fetched. |
| `RequestWriting.RequestWriter.QueueTrailers` | proxy/src/connect/forward.rs:491-502 | Trailers are filtered, flattened and queued behind the last chunk, within the buffer budget. |
| `RequestWriting.RequestWriter.BufferBound` | proxy/src/connect/forward.rs:428-435 | In every state the writer can reach, its own octets, the decoder's partial trailers and the unread buffer total at most 65536. |
| `RequestWriting.RequestWriter.CompleteMeaning` | proxy/src/connect/forward.rs:437-465 | A complete writer has flushed exactly the re-encoded body: under every trailer limit it decodes to the payload and, exactly when the forwarded section fits, to the forwarded trailers. No forwarded value was empty, and the downstream stands at the octet after the request with at most 8192 octets read ahead. |
| `RequestWriting.RequestWriter.PartialMeaning` | proxy/src/connect/forward.rs:428-465 | In every state, what the origin has received is an unfinished message with a prefix of the payload, or exactly the whole message; under Content-Length, a prefix of the payload. |
| `RequestWriting.ReframedDecodes` | proxy/src/connect/forward.rs:475-546 | Any non-empty frames and any well-formed fields, re-framed, decode to the concatenated frames and, if and only if the printed section fits the trailer limit, to the map the fields denote; otherwise they are refused as too large. |
| `RequestWriting.OpenEncodingUnfinished` | proxy/src/connect/forward.rs:482-507 | Before the body has ended, no prefix of what was emitted can be taken for a complete message: no early last-chunk is ever sent. |
| `RequestWriting.ForwardBody` | proxy/src/connect/forward.rs:412-556 | Over every interleaving of steps, partial writes, read splits and drops, and at every end: what was sent is an unfinished message with a prefix of the payload or exactly the whole message. A finished request decodes to the same payload and to the input trailers minus hop-by-hop and nominated names; only a malformed body is refused, and the origin side fails only for an empty forwarded value or because the network refused. |
| `RequestWriting.RefusedNeverComplete` | proxy/src/connect/forward.rs:428-465 | A refused body, however much of it was written, never looks complete under any limits. |
| `RequestWriting.EmptyTrailerCannotBeSent` | proxy/src/connect/forward.rs:442-448 | The accepted body with the one trailer line x: has an empty value to forward, so no run completes it. |
| `RequestWriting.LongTrailerOutgrowsTheLimit` | proxy/src/connect/forward.rs:523-527 | An accepted body whose single trailer fills the limit to the last octet: whatever a finished request sent for it, the proxy itself refuses as too large. |
| `OriginHeads.CodingsAgree` | proxy/src/server/http1.rs:867-928 | The request and response parsers agree on which Transfer-Encoding values are chunked and which are absent; only a response may end in another coding. |
| `OriginHeads.ResponseFramingRules` | proxy/src/server/http1.rs:652-735 | Every accepted response is framed by exactly one rule of section 6.3 of RFC 9112, never by both Content-Length and Transfer-Encoding, and a close-delimited one always closes. |
| `OriginHeads.ReadResponseHead` | proxy/src/connect/origin_body.rs:106-165 | Reading a response head is a function of the stream, resumable after every drop, and leaves at most 8192 surplus octets. |
| `OriginBodies.DecodersAgree` | proxy/src/connect/origin_body.rs:326-455 | A run of the request decoder and a run of the response decoder over the same octets, with any splits and drops: what either delivers is a prefix of the other; ended runs delivered the same payload with the same verdict, except that the response side refuses four more trailer names; and where both succeed they stop at the same octet. |
| `OriginBodies.ReadData` | proxy/src/connect/origin_body.rs:167-194 | Response octets are delivered in order, in pieces of at most 65518, and the end of the stream is told apart from its failure. |
| `OriginBodies.OriginDecoder.ReadTrailers` | proxy/src/connect/origin_body.rs:242-280 | The trailer section's map, limit and error are those of the whole stream, and the map plus the unread octets stay within 65536. |
| `OriginBodies.OriginDecoder.NextFrame` | proxy/src/connect/origin_body.rs:382-455 | Each frame is the next piece of the outcome the stream determines, close-delimited bodies included; trailers are delivered without hop-by-hop and nominated names. |
| `OriginBodies.PutOrigin` | proxy/src/connect/origin_body.rs:532-542 | A socket enters the pool exactly when no unread octet remains and the pool is open. |
| `OriginBodies.StreamingOriginBody.constructor` | proxy/src/connect/origin_body.rs:566-599 | A response without a body returns its origin at once, under the same condition. |
| `OriginBodies.StreamingOriginBody.PollFrame` | proxy/src/connect/origin_body.rs:512-530 | Only the end of the body returns the origin; an error, a forced shutdown or a dropped future discards it. |
| `OriginBodies.StreamBody` | proxy/src/connect/origin_body.rs:601-635 | Over any number of polls the payload and trailers are those of the stream, and the origin is pooled exactly when the body ended at its framed end with nothing left over and pooling was allowed. |
| `Exchanges.WriteRequestHead` | proxy/src/connect/forward.rs:221-260 | Partial writes emit exactly the head, in order, or a prefix of it when the exchange is given up. |
| `Exchanges.Converse` | proxy/src/connect/forward.rs:66-160 | From any valid writer and any read-ahead, the loop over request steps and response heads keeps the pooling rule and answers with the first final head of the response stream. |
| `Exchanges.Exchange` | proxy/src/connect/forward.rs:50-161 | The origin is pooled exactly when the request was written and flushed in full, the final response was read to its framed end with no octet left, and it neither asks for closing nor relies on it. At every end, refused and cancelled ones included, what was sent is a prefix of the head, or the head followed by an unfinished or exactly the whole body. |
| `Exchanges.Answer` | proxy/src/connect/forward.rs:136-152 | The pooling decision, and the body stream built from it. |
| `Forwarding.HeadSplits` | proxy/src/connect/forward.rs:307-331 | A printed head, whatever content follows it, splits back off at its first CRLF and its first empty line. |
| `Forwarding.ForwardedRequest` | proxy/src/connect/forward.rs:62-81 | A printed head and a delivered body are one request: it parses to the method, framing and rewritten fields of the head read from the client, and its content, under the framing it announces, to the payload and forwarded trailers, with nothing after them. |
| `Forwarding.Serve` | proxy/src/connect/forward.rs:50-161 | From reading a head to the end of the exchange, over every split, drop and partial write: a completed exchange has sent the origin exactly the client's request, and the connection stands at the client's next head, ready to read it. |
| `IdlePools.ExpiredArePrefix` | proxy/src/connect/pool.rs:157-160 | Expired entries are exactly a prefix of the recency queue. |
| `IdlePools.OldestKey` | proxy/src/connect/pool.rs:101-110 | The minimum over the hash map, in whatever order it iterates. |
| `IdlePools.OldestIsFirst` | proxy/src/connect/pool.rs:101-110 | The key of the smallest stamp is the key at the front of the queue. |
| `IdlePools.IdlePool.TakeIfReusable` | proxy/src/connect/pool.rs:69-78 | Expired entries go, the key goes, and the value is returned exactly when it was live and is reusable. |
| `IdlePools.IdlePool.PutIfReusable` | proxy/src/connect/pool.rs:81-111 | The key moves to the newest end with a fresh stamp, expired entries go, and overflow drops the oldest; the size never exceeds the capacity and a closed pool stays empty. |
| `IdlePools.IdlePool.Close` | proxy/src/connect/pool.rs:118-122 | A closed pool is empty. |
| `IdlePools.PutMembers` | proxy/src/connect/pool.rs:81-111 | Only the value that was put can be new, and it is in any pool that can hold one. |
| `UpstreamPermits.PermitsConserved` | proxy/src/shutdown.rs:161-211 | In every interleaving, available permits plus pooled sockets plus sockets dialled, checked out or being dropped equal the limit, and neither the active counter nor its recorded maximum passes the limit. |
| `UpstreamPermits.MaximumIsPeak` | proxy/src/shutdown.rs:178-186 | Once every raise has been recorded, the recorded maximum is at least every value the counter ever had. |
| `UpstreamPermits.QueueAfterDistinct` | proxy/src/connect/pool.rs:81-122 | No pool operation pools a socket twice or invents one. |
| `SignalControl.NextKeepsInv` | cli/src/run.rs:343-374 | Every atomic step of the run path and of the signal thread keeps the responsibility invariant of gate, slots and cleanups. |
| `SignalControl.Safety` | cli/src/run.rs:411-483 | In every interleaving each cleanup runs at most once, the proxy's cleanup and the policy's retirement only follow the agent's finished cleanup, and a completed teardown or a return leaves no agent behind. |
| `SignalControl.NothingAfterTeardown` | cli/src/run.rs:504-551 | After a completed teardown nothing is created or attached any more. |
| `SignalControl.ProxyStopAfterTeardown` | cli/src/run.rs:580-613 | After a completed teardown the proxy's stop has ended exactly unless the run path is itself in the middle of it. |
| `SignalControl.StopOutlivesIff` | cli/src/run.rs:343-374 | When the signal thread has taken the gate, some continuation completes the teardown before the proxy has stopped exactly if the run path stands between a failed readiness of the broker and the end of the guard's drop; from anywhere else every completed teardown has stopped the proxy. |
| `SignalControl.StopOutlivesTeardown` | cli/src/run.rs:1517-1597 | A behaviour from the start in which the teardown completes and the proxy has not stopped. |
| `SignalControl.BoundedRun` | cli/src/run.rs:1517-1597 | Every behaviour is finite, with an explicit bound. |
| `SignalControl.NeverStuck` | cli/src/run.rs:653-671 | Until the run path has returned or the process has exited some thread can step without waiting for a signal: there is no deadlock. |
| `BrokerLifecycle.NextKeepsInv` | cli/src/broker.rs:145-213 | Every step of the accept thread, of a worker and of stop keeps permits, registrations and handles accounted for. |
| `BrokerLifecycle.PermitsConserved` | cli/src/broker.rs:146-155 | Available and held permits always make up the limit, and the holders are exactly the workers with a connection. |
| `BrokerLifecycle.DrainedStaysEmpty` | cli/src/broker.rs:157-171 | Once stop has drained the socket table it is empty in every later state. |
| `BrokerLifecycle.StopIsComplete` | cli/src/broker.rs:186-213 | When the first stop returns, the accept thread and every worker ever spawned have ended and every permit is back. |
| `BrokerLifecycle.JoinedSocketsAreShut` | cli/src/broker.rs:200-210 | Whatever stop waits for has had every socket it could be blocked on shut down. |
| `BrokerLifecycle.StopNeverWaitsForClients` | cli/src/broker.rs:186-213 | Until stop has returned, some step is possible that needs nobody outside: no client connects, and a serving worker goes on only because its sockets have been shut down under it. |
| `BrokerLifecycle.StopIsBounded` | cli/src/broker.rs:186-213 | However busy the clients are, a stopped broker takes at most an explicitly bounded number of steps more. |
| `BrokerLifecycle.StopReturns` | cli/src/broker.rs:186-213 | A run of a stopped broker that nobody outside helps, carried on for as long as it can be, ends with stop having returned. |
| `PolicyRuns.LiveRunStays` | cli/src/net.rs:1088-1138 | A published run whose lease is held and that is not retired is never reaped. |
| `PolicyRuns.CrashedRunIsGone` | cli/src/net.rs:1088-1138 | Whatever an operation finds without a live lease is gone once its reaping has succeeded. |
| `PolicyRuns.PublicationIsSafe` | cli/src/net.rs:1034-1085 | A publication in progress keeps its directory until it ends; nobody else can reap it. |
| `PolicyRuns.LogClearedWhenIdle` | cli/src/net.rs:998-1025 | From taking the lock to the look at the log: whatever is still published was live when the publication began; the log is cleared whenever no run was live then, left alone whenever a run stays live throughout, and cleared exactly when no published run is left. |
| `PolicyRuns.NextKeepsInv` | cli/src/net.rs:1187-1202 | Every step, retirements and crashes included, keeps the lease invariant. |
| `PolicyLayers.ResolveLayers` | cli/src/net.rs:1359-1379 | The nested loops and their hash index compute the resolution of the flattened layers, and fail exactly when some entry is no domain. |
| `PolicyLayers.Record` | cli/src/net.rs:1367-1375 | One step through the index; the index always agrees with the output. |
| `PolicyLayers.ResolvedMeaning` | cli/src/net.rs:1359-1379 | Every domain appears exactly once, in the order of first appearance through the layers, and its sources are exactly the layers that contain it, in order. |
| `PolicyStores.OtherSourcesMeaning` | cli/src/net.rs:1257-1302 | A source is reported exactly when it is in the reporting scope, allows the domain and is not the selected one; none twice. |
| `PolicyStores.PolicyStore.SourcesFor` | cli/src/net.rs:1257-1302 | The four loops build exactly that report. |
| `PolicyStores.PolicyStore.Snapshot` | cli/src/net.rs:892-949 | Every run is resolved against the policy of the moment, and names itself exactly for the domains it brought along. |
| `PolicyStores.PolicyStore.Deny` | cli/src/net.rs:598-679 | Nothing changes unless the whole batch is in the selected scope; otherwise exactly the batch is removed from it, in order, no other scope is touched, and the report describes the policy left behind. |
| `PolicyStores.KeptStored` | cli/src/net.rs:651-654 | Retaining keeps a stored list normal and free of repetitions, without exactly the removed entries. |
| `PolicyStores.MissingIsNotSelected` | cli/src/net.rs:636-648 | In the report of a refused batch, leaving the selected scope out changes nothing. |
| `PolicyFiles.NormalizedIsValid` | cli/src/net.rs:117-141 | What the command line normalizes is a policy domain the proxy accepts. |
| `PolicyFiles.ValidIsNormal` | proxy/src/domain/policy.rs:149-157 | Every policy domain the proxy accepts is already normal for the command line. |
| `PolicyFiles.NormalizeIdempotent` | cli/src/net.rs:199-215 | Normalizing is idempotent. |
| `PolicyFiles.NormalizeDomains` | cli/src/net.rs:1427-1436 | Fails on the first bad entry, otherwise the normalized entries in order of first appearance. |
| `PolicyFiles.DedupFacts` | cli/src/net.rs:1427-1436 | The same entries, none twice, and nothing changed where there was no repetition. |
| `PolicyFiles.DedupOrder` | cli/src/net.rs:1427-1436 | Of two entries kept, the earlier one is met in the input before the later one is. |
| `PolicyFiles.StrictLinesRoundTrip` | proxy/src/domain/policy.rs:348-357 | What was written line by line is read back line by line by the strict reader. |
| `PolicyFiles.EntryOfValid` | proxy/src/domain/policy.rs:119-133 | A normal domain is one entry, a domain or an address, that prints back as itself. |
| `PolicyFiles.WrittenDomainsAccepted` | proxy/src/domain/policy.rs:326-333 | Every domain file the command line writes is accepted by the strict loader and yields exactly the written set. |
| `PolicyFiles.WrittenDomainsReadBack` | cli/src/net.rs:1419-1426 | The command line reads its own domain files back as the lists it wrote. |
| `PolicyFiles.WrittenAuthoritiesAccepted` | proxy/src/domain/policy.rs:335-346 | Every loopback file the command line writes is accepted by the strict loader and yields exactly the written authorities. |
| `LoopbackAuthorities.ParseIpv4` | proxy/src/domain/target.rs:99-113 | The array-filling loop reads exactly the dotted quads: four numerals below 256 without leading zeros. |
| `LoopbackAuthorities.QuadRoundTrip` | proxy/src/domain/target.rs:89-93 | Printing and parsing four octets is the identity. |
| `LoopbackAuthorities.QuadCanonical` | proxy/src/domain/target.rs:99-113 | A dotted quad has one text only. |
| `LoopbackAuthorities.ParsersAgree` | proxy/src/domain/target.rs:54-83 | Both components read exactly the same authorities out of exactly the same texts. |
| `LoopbackAuthorities.TextRoundTrip` | cli/src/net.rs:58-94 | Printing then parsing any loopback authority gives it back, in both components. |
| `LoopbackAuthorities.NormalizeAuthorityIdempotent` | cli/src/net.rs:185-189 | Normalizing an authority is idempotent. |
| `DomainMatching.MatchesIffLabelSuffix` | proxy/src/domain/policy.rs:103-111 | A pattern matches exactly the hosts whose dot-separated labels end in the pattern's labels. |
| `DomainMatching.MatchesBelow` | proxy/src/domain/policy.rs:103-111 | Matching is transitive down subdomains. |
| `DomainMatching.DecideMonotone` | proxy/src/domain/policy.rs:198-228 | Adding entries never refuses what was allowed and never starts recording a denial. |
| `DomainMatching.DecideBelow` | proxy/src/domain/policy.rs:198-228 | Under one policy, a name below an allowed one is allowed. |
| `TargetAuthorities.CanonicalIsFixed` | proxy/src/domain/target.rs:565-584 | Reparsing a public target's canonical authority gives the same host, scope, port and explicit-port flag, and it stays public. |
| `TargetAuthorities.LocalStaysLocal` | proxy/src/domain/target.rs:402-416 | A local target's canonical authority is local again, with the same host and port. |
| `TargetAuthorities.ParsedKept` | proxy/src/domain/target.rs:452-534 | What a parsed authority guarantees: a normal name, a quad outside or inside 127/8, a valid zone, a port in range. |
| `Calendar.CivilDateIsGregorian` | proxy/src/diagnostics.rs:249-261 | On every day the arithmetic gives the date reached by stepping that many days from 1970-01-01, with month and day in range. |
| `Calendar.CivilTimeMeaning` | proxy/src/diagnostics.rs:249-269 | For every u64 second count, the Gregorian date and the time of day of section 5.7 of RFC 3339. |
| `Calendar.CivilTimeInjective` | proxy/src/diagnostics.rs:249-269 | Different seconds have different civil times. |
| `Calendar.NoOverflow` | proxy/src/diagnostics.rs:250-260 | No intermediate value leaves the signed 64-bit range. |
| `Calendar.YearOfEraExact` | proxy/src/diagnostics.rs:254-257 | The four divisions find the one year of the era that contains the day. |
| `CleanPaths.CleanPath` | cli/src/config.rs:344-371 | The pushing and popping loop computes the cleaned text. |
| `CleanPaths.CleanedKeepsLocation` | cli/src/config.rs:341-371 | The cleaned path names the same location from every starting directory and is rooted exactly when its input is. |
| `CleanPaths.CleanedIffSameLocations` | cli/src/config.rs:341-371 | Two paths clean to the same text exactly when they are both rooted or both not and name the same location from every starting directory. |
| `CleanPaths.CleanedIdempotent` | cli/src/config.rs:344-371 | Cleaning is idempotent. |
| `CleanPaths.CleanedShape` | cli/src/config.rs:363-370 | A cleaned path is some steps up, none if rooted, then names. |

## Left out

- RequestWriting.ForwardBody: gives the exact cause of every failure, but bounds no number of steps.
- IdlePools.IdlePool.PutIfReusable: stated for fewer than 2^64 puts, after which the source's stamp counter would wrap.
- Policy retirement is not claimed to wait for a proxy stop that the run path has begun.
- BrokerLifecycle.StopIsComplete: speaks of the first caller of `stop` to return from it; the broker is not claimed to stay up while the agent runs, as its handle is dropped after readiness. A failed start of the accept thread, which stops the broker, is not modelled.
- An I/O error and an early end of the stream of a request are one outcome, as the source gives both the same error.
- The order of fields with different names in a forwarded head.
- PolicyStores.PolicyStore.Deny: stored policy files are read without I/O error; loopback deny and loopback resolution, which have the same shape, are not modelled, nor are `mutate_*` and the active mode.
- PolicyRuns.NextKeepsInv: the directory is an atomic map with rename; I/O failures in the middle of a write are not modelled.
- The URI octet scan and the URI split before the authority are not modelled.
- The async runtime, timers, socket polling and the monitor of a closed peer: replaced by free reads, writes and drops.
- The prefetch used by tests only, and the wait for the start of a head.
- Re-encoding of responses toward the client, and the text of informational responses: in files that are not part of this model.
- `ManagedIo` registrations and `force_close_all`: sockets registered after it are not claimed to be closed.
- The marker and message of a failed agent cleanup, and the broker's stop counters in the run path.
- The broker's worker handshake and its relay; image building; the audit log; argument parsing and other texts of the command line.
- SIGINT, which the signal thread ignores.
