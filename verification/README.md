# Crow, modelled and proved in Dafny

This project models the computational core of the Crow web server that is
embedded under `read_process_memory/crow/`: the incremental HTTP request
parser and the message assembly on top of it, the URL splitter, the routing
trie and the dispatch of typed captures, the mustache template engine, JSON
loading and dumping, query strings, streaming SHA-1 and the timer queue.
`dafny verify dfyconfig.toml` checks all of it.

Code that works by changing things step by step is modelled as classes and
loops with the fields of the original: the parser with its marks, the growing
vector of trie nodes, the interpreter with its context stack, the text buffer
that JSON strings and query values are decoded in, the hash block, the queue.
Each such method is proved against a function or a predicate that does not
know about buffers, indices or jumps, and the promises of the library are
proved about that.

## The main results

**Slices do not matter.** `HttpMachine` follows the switch of
`http_parser_execute` state by state (requests, strict mode). `HttpStream`
gives a byte stream its meaning one byte at a time, without buffers or marks.
`HttpParser.Parser.Execute` is the loop over a buffer, with marks that are
resumed and flushed and bodies consumed in bulk, and is proved to agree with
that meaning; `HttpSlices` concludes that no way of cutting a stream changes
fields, glued callbacks, error or position, and `HttpMessage` that none
changes the assembled messages. `HttpInvariant` shows that no assertion of the
parser can fail on any input. `HttpPrinter` writes requests, and the parser
undoes it, also through Crow's callbacks (`HttpMessage.RoundTrip`), up to the
first request whose Connection header closes the connection; `HttpValues` says
which values of that header do.

**The routing trie is a linear scan.** `Routes` says what it means for a rule
to match a URL and which of several is taken. `Trie` is the trie with its
in-place compression and the backtracking search; it agrees with the scan
before and after compression. `Router` adds redirects, `RouteArgs` the packed
types and the way captures reach the arguments of a handler.

**Jumps are trees.** `MustacheTemplate` compiles a template into the flat
array of actions, `MustacheRun` interprets it, `MustacheTree` gives the nested
blocks a recursive meaning; rendering equals it.

**In-place decoding.** `JsonBuffer` parses JSON in the text it writes into;
`JsonRead` is the reader it is proved against, and dumping, loading and
converting gives every value without numbers back. `QueryString` decodes
values in place and compares names with keys, both escaped, and `QueryLookup`
finds what `QueryEncode` wrote.

**Whole runs.** `Sha1` equals `Sha1Standard`, a transcription of FIPS 180-4,
for any pieces. `Timers` keeps the history of a run and what holds of it.

## What the code does that a reader may not expect

- A rule with a `<path>` and a slash at its end never matches anything, and a
  URL that matches its stripped form is redirected again and again
  (`Redirects.RedirectLands`, `Router.RedirectAnswers`; `Router.RedirectExample`
  is one such rule and URL).
- The packed type list of a rule is exact if and only if it fits 64 bits
  (`RouteArgs.DecodeExact`); up to 24 placeholders always do, and 25 string
  placeholders do not (`RouteArgs.StringRuleExact`).
- A name that is looked up in a query is read with its escapes, and cut at the
  first character that ends a key; only a plain name is compared as it is
  (`QueryText.PlainFits`, `QueryLookup.EncodedKeyFits`).
- If the opening delimiter of a template begins with a line feed, the pass
  over standalone tags can move the beginning of a fragment behind its end
  (`MustacheStandalone.BoundsExact`, `MustacheTemplate.SplitBreakExample`).
- The length that SHA-1 appends has 32 bits: from 2^29 bytes on the padding is
  not that of the standard (`Sha1.PaddingsAgree`).
- The byte count that limits the size of a head is still two after a chunked
  message (`HttpChunks.ReadLastChunk`), and bytes from 128 on count as digit 0
  in a chunk size (`HttpChars.Unhex`).
- A header with an empty value is dropped unless it is the last one
  (`HttpMessage.Apply`).

## Model

| member | source | states |
|---|---|---|
| HttpMachine.AgainLowersRank | read_process_memory/crow/http_parser_merged.h:979-2206 | A state that asks for its byte to be looked at again hands it to a state of lower rank, whatever the fields and the byte, so re-executing a byte always ends. |
| HttpInvariant.DispatchKeeps | read_process_memory/crow/http_parser_merged.h:979-2206 | From fields that meet the invariant, all passes over one byte end without a failed assertion, in an error with its number set, or in fields that meet it again. |
| HttpInvariant.StepKeeps | read_process_memory/crow/http_parser_merged.h:957-2207 | The same with the size check before the switch: no byte in any reachable state makes an assertion fail; the method and header indices never pass the end of the name being matched and a length never is the 2^64-1 sentinel. |
| HttpInvariant.StreamKeeps | read_process_memory/crow/http_parser_merged.h:957-2239 | The invariant holds after any stream fed from fields that meet it. |
| HttpInvariant.NoAssertionFails | read_process_memory/crow/http_parser_merged.h:831-2239 | For every byte stream fed to a fresh request parser: no assertion fails, and the run ends in the invariant or in an error whose number is set. |
| HttpInvariant.MatchKeeps | read_process_memory/crow/http_parser_merged.h:1639-1706 | One more character against a header name gives up, finds the name, or advances the index by one to a place still inside the name. |
| HttpInvariant.OtherMethodFits | read_process_memory/crow/http_parser_merged.h:1280-1345 | The method guess is only ever switched at a position inside the name of the new method. |
| HttpStream.StreamSplit | read_process_memory/crow/http_parser_merged.h:831-2239 | The meaning of a stream cut in two is the meaning of the second part continued from where the first one leaves off, errors and positions included. |
| HttpStream.GlueSnoc | read_process_memory/crow/http_parser_merged.h:2209-2229 | One more data callback extends the last piece of the same kind in the glued trace, any other callback is appended. |
| HttpShape.DispatchShape | read_process_memory/crow/http_parser_merged.h:979-2206 | Outside a body every byte depends on itself only, not on how much of the buffer follows, and sets, delivers and notifies exactly in the order given by the states before and after it. |
| HttpParser.ByteStands | read_process_memory/crow/http_parser_merged.h:938-955 | Performing the mark operations of a byte outside the body keeps at most one mark, the one the state calls for, and the delivered callbacks together with the marked data follow the byte-by-byte trace. |
| HttpParser.EmptyValue | read_process_memory/crow/http_parser_merged.h:1931-1943 | The mark and delivery at the end of an empty header value report one empty value and leave the other marks alone. |
| HttpParser.BodyRun | read_process_memory/crow/http_parser_merged.h:2036-2070 | Consuming a stretch of a counted body or a chunk at once has the effect of consuming its bytes one by one. |
| HttpParser.BodyOpsStand | read_process_memory/crow/http_parser_merged.h:2036-2192 | A stretch of body that ends the message is delivered with its last byte; any other stays marked; in both cases delivered and marked data add up to the trace. |
| HttpParser.FailStands | read_process_memory/crow/http_parser_merged.h:2233-2238 | When a byte fails, what was delivered is the trace up to that byte except for at most one piece of data that was still marked. |
| HttpParser.FlushStands | read_process_memory/crow/http_parser_merged.h:2219-2229 | With the at most one mark that is set at the end of a buffer, delivering what is marked completes the trace. |
| HttpParser.LoopTurn | read_process_memory/crow/http_parser_merged.h:957-2207 | One turn of the loop, over one byte or a stretch of body, leaves fields, marks and callbacks where the rest of the stream continues. |
| HttpParser.ResumedSane | read_process_memory/crow/http_parser_merged.h:934-955 | The marks set before the loop are those the state asks for, and mark no data yet. |
| HttpParser.Parser.constructor | read_process_memory/crow/http_parser_merged.h:2298-2307 | A fresh request parser is in its start state with every field zero and meets the invariant. |
| HttpParser.Parser.Execute | read_process_memory/crow/http_parser_merged.h:831-2239 | A call on a non-empty buffer leaves the fields, error and return value that the byte-by-byte meaning of the buffer gives, and extends the glued callbacks to its trace; after an error a call changes nothing; an empty buffer is the end of the stream. |
| HttpSlices.SliceIndependence | read_process_memory/crow/http_parser_merged.h:831-2239 | For every stream and every way to cut it, running the pieces one after the other gives the same fields, the same glued callbacks, the same error and the same absolute position of the failing byte as the uncut stream. |
| HttpSlices.StreamShift | read_process_memory/crow/http_parser_merged.h:2233-2238 | Error positions are relative: starting the same stream at a later offset shifts them and changes nothing else. |
| HttpSlices.StopsInside | read_process_memory/crow/http_parser_merged.h:2233-2238 | A stream that fails or upgrades does so at one of its own bytes. |
| HttpSlices.UpgradeFlag | read_process_memory/crow/http_parser_merged.h:1945-2034 | The upgrade flag is clear as long as a stream runs on and set when it stopped for an upgrade. |
| HttpSlices.NotEnded | read_process_memory/crow/http_parser_merged.h:912-931 | Only an empty piece can end a stream early. |
| HttpSlices.ExecuteAll | read_process_memory/crow/http_parser_merged.h:831-2239 | Calling the buffer loop on the pieces of a stream in turn consumes, reports and fails exactly as one call on the whole stream would; an empty piece between messages changes nothing, and one within a message ends the stream there with the error for that. |
| HttpMethods.GuessStep | read_process_memory/crow/http_parser_merged.h:1266-1349 | On the next character of a name the guess either stays and matches or is switched to the one guess that matches. |
| HttpMethods.ReadVerb | read_process_memory/crow/http_parser_merged.h:1225-1349 | Each of the 27 method names followed by a space is recognised as that method, from its first byte. |
| HttpMethods.MethodExact | read_process_memory/crow/http_parser_merged.h:1225-1349 | A word followed by a space is accepted as a method if and only if it is one of the 27 names, and the method recognised spells exactly the bytes read. |
| HttpHeaders.TrackFirst | read_process_memory/crow/http_parser_merged.h:1562-1590 | After the first character of a name the matcher is at the names that begin with it. |
| HttpHeaders.TrackByte | read_process_memory/crow/http_parser_merged.h:1596-1706 | After every further character the matcher state and index say of the characters read which header name they begin or spell, or that they begin none. |
| HttpHeaders.TrackExact | read_process_memory/crow/http_parser_merged.h:1596-1724 | Where a name ends, the matcher state is that of a header name if and only if the lower-cased characters are exactly that name, for all five names. |
| HttpValues.TrackNextByte | read_process_memory/crow/http_parser_merged.h:1855-1885 | After every byte of a Connection or Transfer-Encoding value the header state and index say exactly of the bytes read, letter case aside, whether they begin or are "keep-alive", "close" or "chunked", and whether only spaces follow. |
| HttpValues.TrackedFlags | read_process_memory/crow/http_parser_merged.h:1905-1918 | Where such a value ends, exactly the flag of the word it is, if any, is set. |
| HttpWire.HeaderNameExact | read_process_memory/crow/http_parser_merged.h:1546-1724 | Reading any token name and a colon leaves the header state of Connection (or Proxy-Connection), Content-Length, Transfer-Encoding or Upgrade if and only if the name is that one, letter case aside. |
| HttpNumbers.PrintNumber | read_process_memory/crow/http_parser_merged.h:1819-1842 | Printing a number to base 10 or 16 gives digits that read back as that number. |
| HttpNumbers.FitsExactly | read_process_memory/crow/http_parser_merged.h:1830-1840 | The check before each digit lets a decimal or hexadecimal number through if and only if it is at most the limit, and then it is below 2^64-1. |
| HttpNumbers.ReadLength | read_process_memory/crow/http_parser_merged.h:1819-1842 | Reading decimal digits of a length adds them up exactly, or fails with the length error if and only if the check fails on the way. |
| HttpNumbers.ReadChunkSize | read_process_memory/crow/http_parser_merged.h:2100-2135 | The same for the hexadecimal size of a chunk. |
| HttpWire.ContentLengthExact | read_process_memory/crow/http_parser_merged.h:1741-1842 | A Content-Length line of decimal digits is accepted if and only if its value is at most the limit, is then held exactly, and otherwise fails with the length error. |
| HttpWire.ReadUrl | read_process_memory/crow/http_parser_merged.h:1369-1422 | A URL accepted by the URL automaton is reported whole and leaves the automaton where it ends. |
| HttpWire.ReadVersion | read_process_memory/crow/http_parser_merged.h:1424-1545 | The end of a request line sets version 1.1 and nothing else. |
| HttpWire.ReadName | read_process_memory/crow/http_parser_merged.h:1546-1724 | A header name is reported as written and its matcher ends at the lower-cased name. |
| HttpWire.ReadPlainLine | read_process_memory/crow/http_parser_merged.h:1546-1922 | A header without a meaning for the parser is reported as written and leaves every field but the byte count and the matcher as it was. |
| HttpWire.ReadLengthLine | read_process_memory/crow/http_parser_merged.h:1741-1922 | A Content-Length line is reported as written and sets the length to its value. |
| HttpWire.ReadFlagLine | read_process_memory/crow/http_parser_merged.h:1741-1922 | A line of Connection, Proxy-Connection or Transfer-Encoding with any value is reported as written and changes nothing but the byte count, the matcher and the flag its value asks for. |
| HttpWire.ConnectionValueExact | read_process_memory/crow/http_parser_merged.h:1774-1921 | After a Connection or Proxy-Connection line the flag for closing is newly set if and only if the value is "close", and the one for keeping the connection if and only if it is "keep-alive", in any letter case and with nothing but spaces after it; no other flag changes. |
| HttpWire.ReadBlankLine | read_process_memory/crow/http_parser_merged.h:1945-2034 | The blank line after the headers reports their end and chooses the state of the body from the flags and the length. |
| HttpChunks.ReadSized | read_process_memory/crow/http_parser_merged.h:2036-2082 | A counted body is reported whole, followed by the end of the message. |
| HttpChunks.ReadChunk | read_process_memory/crow/http_parser_merged.h:2084-2200 | A chunk is reported as its bytes, and the next chunk can follow. |
| HttpChunks.ReadLastChunk | read_process_memory/crow/http_parser_merged.h:2100-2162 | The last chunk ends the message and leaves a byte count of two for the next head. |
| HttpChunks.ReadChunks | read_process_memory/crow/http_parser_merged.h:2084-2200 | Chunks of any sizes, in the coding of section 4.1 of RFC 7230, are reported as the bytes they were cut from, followed by the end of the message. |
| HttpPrinter.ReadRequestLine | read_process_memory/crow/http_parser_merged.h:1225-1545 | A printed request line sets method and version and reports the beginning of a message and the URL. |
| HttpPrinter.ReadHeaderLine | read_process_memory/crow/http_parser_merged.h:1546-1922 | Any printed header line is reported as written and leaves every other field, with the flag set that its value asks for. |
| HttpPrinter.FlagsAfterIs | read_process_memory/crow/http_parser_merged.h:1905-1921 | After all printed headers the closing flag is set if and only if one of them is a Connection or Proxy-Connection header with the value close; only this flag and the one for keeping the connection can change. |
| HttpPrinter.ReadLines | read_process_memory/crow/http_parser_merged.h:1546-1922 | Printed header lines, Connection headers of any value among them, are reported name by name and value by value in their order, and leave the flags their values ask for. |
| HttpPrinter.ReadHead | read_process_memory/crow/http_parser_merged.h:1225-1992 | A printed head is reported whole and leaves the announced framing of the body, and the closing flag exactly if a header asks for it. |
| HttpPrinter.ReadPayload | read_process_memory/crow/http_parser_merged.h:1945-2200 | The blank line and a printed body are reported as the content and the end of the message. |
| HttpPrinter.ReadRequest | read_process_memory/crow/http_parser_merged.h:1225-2200 | One printed request, whatever follows it, is reported as its method, URL, headers and body, and leaves the parser at the start of a message, or dead if a header asked for the connection to be closed. |
| HttpPrinter.ServedExact | read_process_memory/crow/http_parser_merged.h:2263-2285 | The requests up to the first that closes the connection are all requests if and only if all but the last keep it open. |
| HttpPrinter.ClosedRefuses | read_process_memory/crow/http_parser_merged.h:982-991 | Behind a request that closed the connection, a further one is refused at its first byte, with nothing reported. |
| HttpPrinter.ReadRequests | read_process_memory/crow/http_parser_merged.h:1225-2200 | The same for any number of requests after one another, each with the header budget that the one before it leaves: all are read up to the first that closes the connection, and the byte behind that one is refused. |
| HttpPrinter.ParserUndoesPrinter | read_process_memory/crow/http_parser_merged.h:831-2239 | Printed HTTP/1.1 requests on one connection, with any Connection headers, give back exactly what was printed: all of it to the last byte if all but the last keep the connection open, and otherwise the requests up to the first that closes it, behind which the parse fails as closed. |
| HttpMessage.ApplyTwice | read_process_memory/crow/parser.h:23-78 | Data handed to a callback in two calls has the effect of one call with both pieces. |
| HttpMessage.AssembleGlue | read_process_memory/crow/parser.h:17-89 | What callbacks assemble does not depend on how their data is cut: gluing adjacent pieces changes neither the members nor the finished messages. |
| HttpMessage.MessageParser.constructor | read_process_memory/crow/parser.h:90-94 | A new parser holds nothing and is in the start state. |
| HttpMessage.MessageParser.Clear | read_process_memory/crow/parser.h:119-129 | All members of the message are emptied; messages handed over stay handed over. |
| HttpMessage.MessageParser.OnHeaderField | read_process_memory/crow/parser.h:29-47 | The members after the callback are those of the reference step for a piece of a header name. The contract equates the method with a reference step of the same shape; what the steps mean together is HttpMessage.AssembleRequest. |
| HttpMessage.MessageParser.OnHeaderValue | read_process_memory/crow/parser.h:48-62 | The same for a piece of a header value. The contract equates the method with a reference step of the same shape; what the steps mean together is HttpMessage.AssembleRequest. |
| HttpMessage.MessageParser.OnHeadersComplete | read_process_memory/crow/parser.h:63-72 | The last header is added, even with an empty value, if it has a name. The contract equates the method with a reference step of the same shape; what the steps mean together is HttpMessage.AssembleRequest. |
| HttpMessage.MessageParser.OnMessageComplete | read_process_memory/crow/parser.h:79-89 | The message handed over has the URL up to its first question mark, and everything assembled since the message began. The contract equates the method with a reference step of the same shape; what the steps mean together is HttpMessage.AssembleRequest. |
| HttpMessage.MessageParser.Feed | read_process_memory/crow/parser.h:97-112 | For any buffer the members are what the callbacks of the parser put together, and the result tells whether the whole buffer was taken; an empty buffer is the end of the stream, an error within a message and nothing between two; after an error nothing more happens. |
| HttpMessage.FeedAll | read_process_memory/crow/parser.h:17-112 | However a stream is cut, feeding its pieces consumes and fails as the uncut stream; if it runs through or upgrades, raw URL, headers, body and finished messages are those of the uncut stream; if it fails, the finished messages are, and the members lack at most the data that was still marked; an empty piece within a message ends the stream there. |
| HttpMessage.WithheldLacks | read_process_memory/crow/parser.h:17-89 | Data that a failing call withholds is missing from the members at most, never from a finished message. |
| HttpMessage.AssembleLines | read_process_memory/crow/parser.h:29-72 | Header lines with a name and a value become the headers in their order, the last one still in the making. |
| HttpMessage.AssembleRequest | read_process_memory/crow/parser.h:17-89 | The callbacks of one printed request hand over one message with its method, URL, headers and body. |
| HttpMessage.AssembleRequests | read_process_memory/crow/parser.h:17-89 | The callbacks of several hand over these messages in order. |
| HttpMessage.RoundTrip | read_process_memory/crow/parser.h:17-112 | Printed requests cut into any non-empty pieces and fed to a fresh parser come out as the same methods, URLs, headers and bodies, up to the first request that closes the connection; if that is the last one, or none, all bytes are taken. |
| HttpUrl.Moves | read_process_memory/crow/http_parser_merged.h:640-829 | What a step of the URL automaton means for the fields: it stays in a field, begins a later one of the order of RFC 3986 section 3, or is at a delimiter that may stand there. |
| HttpUrl.BeginField | read_process_memory/crow/http_parser_merged.h:2541-2545 | A field begun behind all earlier ones keeps the fields disjoint and in order, and what is outside them delimiters. |
| HttpUrl.DelimiterStep | read_process_memory/crow/http_parser_merged.h:2498-2504 | A delimiter leaves the fields found as they are. |
| HttpUrl.SameFieldStep | read_process_memory/crow/http_parser_merged.h:2535-2539 | A further character of a field directly follows the ones before it. |
| HttpUrl.NewFieldStep | read_process_memory/crow/http_parser_merged.h:2541-2545 | A field is begun at most once, and after every field found before. |
| HttpUrl.AtSeenStep | read_process_memory/crow/http_parser_merged.h:2510-2516 | The at-sign flag says whether the host field holds an at sign. |
| HttpHost.ToUserinfo | read_process_memory/crow/http_parser_merged.h:2446-2453 | A user-information character extends that part, which begins where the authority does. |
| HttpHost.ToHost | read_process_memory/crow/http_parser_merged.h:2423-2435 | A host character extends the host part, which stands behind the user information or inside brackets. |
| HttpHost.ToPort | read_process_memory/crow/http_parser_merged.h:2437-2444 | A port digit extends the port, which stands behind the colon. |
| HttpHost.ReadingEnds | read_process_memory/crow/http_parser_merged.h:2461-2474 | An authority that ends in an accepted state consists of its parts and nothing else. |
| HttpHost.AuthorityInOrder | read_process_memory/crow/http_parser_merged.h:2404-2475 | User information, host and port of an authority are non-empty, disjoint and in order, and only delimiters stand around them. |
| HttpSplit.ParserUrl.constructor | read_process_memory/crow/http_parser_merged.h:265-273 | A zeroed result has no field set. |
| HttpSplit.ParserUrl.GrowPart | read_process_memory/crow/http_parser_merged.h:2437-2453 | The port or the user information grows by one character or begins with it, and no other field changes. |
| HttpSplit.ParserUrl.HostStep | read_process_memory/crow/http_parser_merged.h:2415-2459 | One character of the authority extends or begins exactly the part it belongs to and touches no field outside the authority. |
| HttpSplit.ParserUrl.ParseHost | read_process_memory/crow/http_parser_merged.h:2404-2475 | An authority is accepted if and only if the host automaton ends in an accepted state, and is then split into its parts. |
| HttpSplit.ParserUrl.AddToField | read_process_memory/crow/http_parser_merged.h:2535-2545 | One byte of a field extends it or begins it, whichever the automaton says. |
| HttpSplit.ParserUrl.OneStep | read_process_memory/crow/http_parser_merged.h:2490-2546 | One character of the first pass keeps the fields found right for the text read so far. |
| HttpSplit.ParserUrl.FindFields | read_process_memory/crow/http_parser_merged.h:2490-2546 | The first pass succeeds if and only if the URL automaton never dies, and then the fields are in bounds, disjoint and in order. |
| HttpSplit.ParserUrl.StrToUl | read_process_memory/crow/http_parser_merged.h:2563-2563 | strtoul gives the decimal value of the longest run of digits, at most the largest unsigned long. |
| HttpSplit.ParserUrl.SplitAuthority | read_process_memory/crow/http_parser_merged.h:2548-2554 | With a schema or a host the authority is split, and a URL with a schema, user information or a port has a host. |
| HttpSplit.ParserUrl.SetPort | read_process_memory/crow/http_parser_merged.h:2561-2571 | The port is accepted if and only if its digits are at most 65535, and is their value. |
| HttpSplit.ParserUrl.ParseUrl | read_process_memory/crow/http_parser_merged.h:2477-2574 | A URL is accepted if and only if the automaton, the authority, the CONNECT form and the port allow it; then its set fields are in bounds, disjoint and in the order of RFC 3986 section 3, every byte outside them is a delimiter, and the port is the decimal value of its field. |
| HttpSplit.WholeInOrder | read_process_memory/crow/http_parser_merged.h:2404-2574 | Splitting the authority in the place of the host field keeps all fields in order and only delimiters between them. |
| HttpSplit.PortIsRun | read_process_memory/crow/http_parser_merged.h:2561-2570 | The port field is the whole run of digits that strtoul reads. |
| HttpSplit.NoHostNoField | read_process_memory/crow/http_parser_merged.h:2548-2554 | A URL with a schema and no host is not accepted. |
| Routes.MatchedAreOrdered | read_process_memory/crow/routing.h:637-732 | Two token sequences that match the same URL are the same, or one comes before the other in the order in which the search tries them. |
| Routes.BestIsUnique | read_process_memory/crow/routing.h:628-635 | At most one rule is best for a URL. |
| Routes.LinearScanIsBest | read_process_memory/crow/routing.h:614-735 | A plain scan over all rules ends with the matching rule of the smallest index (and, among stripped rules that share the redirect index, the first in token order), or with none if none matches. |
| TrieShape.NextEdge | read_process_memory/crow/routing.h:534-549 | Where the path of a rule goes on below a node, the node has an edge for its next token. |
| TrieSearch.MatchLits | read_process_memory/crow/routing.h:722-732 | Matching literal tokens is comparing a fragment with the URL at the position. |
| TrieSearch.ThroughLits | read_process_memory/crow/routing.h:722-732 | The rules that can match along a literal edge are those below its child after the fragment, or none if the URL does not follow it. |
| TrieSearch.ThroughParam | read_process_memory/crow/routing.h:637-720 | The rules that can match along a placeholder edge are those below its child after what the scanner takes, or none if it takes nothing. |
| TrieSearch.UptoStep | read_process_memory/crow/routing.h:637-720 | The matches of the next placeholder type come after all matches of the earlier ones. |
| TrieSearch.AlongStep | read_process_memory/crow/routing.h:722-732 | The matches of a further literal edge come after all matches of placeholders. |
| TrieSearch.AllBelow | read_process_memory/crow/routing.h:614-735 | Placeholder edges and literal edges together cover every rule that can match below a node. |
| TrieSearch.OnlyOneFollows | read_process_memory/crow/routing.h:722-732 | The URL follows at most one literal edge of a node, so the order of the unordered map does not matter. |
| TrieSearch.BestOfTwo | read_process_memory/crow/routing.h:628-635 | Keeping the smaller non-zero index of two searches gives the best rule of both sets. |
| TrieSearch.CapsThroughParam | read_process_memory/crow/routing.h:645-651 | The captures of a rule found along a placeholder edge are the scanned value followed by the captures below. |
| TrieSearch.BestIsScanned | read_process_memory/crow/routing.h:614-735 | The best rule of the whole trie, with its captures, is what a scan over the rules it holds ends with. |
| TrieGrow.TokenizeStep | read_process_memory/crow/routing.h:741-788 | The token sequence of a rule is read character by character, a known placeholder counting as one. |
| TrieGrow.GrowKeeps | read_process_memory/crow/routing.h:763-786 | A new node for a token that has no edge keeps the trie in order: later indices, distinct paths, every node reachable. |
| TrieGrow.GrowHolds | read_process_memory/crow/routing.h:763-786 | A new node changes nothing in the rules the trie holds. |
| TrieGrow.SetRule | read_process_memory/crow/routing.h:789-791 | Giving a free node a rule keeps the trie in order. |
| TrieCompress.TwoStepsEdge | read_process_memory/crow/routing.h:580-587 | Two literal steps joined are a proper edge: a non-empty label that spells the path to a later node. |
| TrieCompress.JoinedPrefix | read_process_memory/crow/routing.h:580-587 | Two joined labels one of which begins the other come from the very same two steps, so joined keys never collide. |
| TrieCompress.MergeOne | read_process_memory/crow/routing.h:585-585 | Adding one joined label to the new map overwrites none that is there for other steps. |
| TrieCompress.MergedEdges | read_process_memory/crow/routing.h:579-588 | The joined labels of a node are distinct, none begins another, and each spells the path it leads to. |
| TrieCompress.MergedTowards | read_process_memory/crow/routing.h:579-588 | After joining, every rule below the node can still be reached from it. |
| TrieCompress.MergeKeeps | read_process_memory/crow/routing.h:577-588 | Replacing the edges of a node whose literal children are all simple by the joined ones keeps the trie in order. |
| TrieCompress.KidsApart | read_process_memory/crow/routing.h:556-599 | Different edges of a node lead to separate parts of the trie. |
| TrieCompress.CompressedThere | read_process_memory/crow/routing.h:556-599 | Whether the part below a node is compressed depends on that part only. |
| TrieCompress.GoingStep | read_process_memory/crow/routing.h:558-564 | Compressing the part below one child keeps what was done below the others, and changes nothing if it was compressed already. |
| TrieCompress.FrameHolds | read_process_memory/crow/routing.h:556-604 | Compression keeps exactly the rules the trie held. |
| Captures.ParamStacks.constructor | read_process_memory/crow/routing.h:616-618 | New stacks are empty. |
| Captures.ParamStacks.PushOne | read_process_memory/crow/routing.h:647-647 | A capture goes on top of the stack of its type. |
| Captures.ParamStacks.PopOne | read_process_memory/crow/routing.h:650-650 | Popping after a push leaves all four stacks as they were before it. |
| Trie.Trie.constructor | read_process_memory/crow/routing.h:551-553 | A new trie has its head and no rule. |
| Trie.Trie.ChildFor | read_process_memory/crow/routing.h:765-770 | The child for a token is found or made; its path is the path of the node and the token. |
| Trie.Trie.Descend | read_process_memory/crow/routing.h:739-788 | The node reached for the text of a rule is the one whose path is its token sequence. |
| Trie.Trie.Add | read_process_memory/crow/routing.h:737-792 | A rule is added if and only if no rule with the same tokens is there; otherwise it is refused and the rules stay as they are. |
| Trie.Trie.UpdateFound | read_process_memory/crow/routing.h:628-635 | The answer kept is the best of the two sets searched so far. |
| Trie.Trie.FindParam | read_process_memory/crow/routing.h:637-720 | The search along one placeholder type answers for the rules of this and the earlier types, and leaves the shared stacks as it found them. |
| Trie.Trie.FindLiteral | read_process_memory/crow/routing.h:722-732 | The same along one literal edge. |
| Trie.Trie.FindParams | read_process_memory/crow/routing.h:637-720 | The placeholder types together answer for all rules that go on with a placeholder. |
| Trie.Trie.FindLiterals | read_process_memory/crow/routing.h:722-732 | In whatever order the literal edges are tried, they answer for all rules below the node. |
| Trie.Trie.Find | read_process_memory/crow/routing.h:614-735 | From any node and position the search answers with the best rule below it that matches the rest of the URL, that rule's captures on top of those already taken, and leaves the shared stacks as it found them. |
| Trie.Trie.MergedChildren | read_process_memory/crow/routing.h:579-587 | The new map has exactly the joined labels of all pairs of steps, in whatever order they are visited. |
| Trie.Trie.ChildrenAreSimple | read_process_memory/crow/routing.h:567-576 | Tells whether all literal children are simple. |
| Trie.Trie.OptimizeNode | read_process_memory/crow/routing.h:556-599 | Compresses the part below a node completely, touches nothing outside it, keeps the trie in order and its rules, ends, and changes nothing if that part was compressed. |
| Trie.Trie.OptimizeParams | read_process_memory/crow/routing.h:558-564 | The parts below the placeholder children are compressed and the node itself stays. |
| Trie.Trie.OptimizeLiterals | read_process_memory/crow/routing.h:593-597 | The parts below the literal children are compressed and the node itself stays. |
| Trie.Trie.OptimizeChild | read_process_memory/crow/routing.h:556-599 | One recursive call leaves the parts below the other children as they are. |
| Trie.Trie.Validate | read_process_memory/crow/routing.h:607-612 | Refuses if and only if the head is not simple; otherwise the whole trie is compressed with the same rules, and validating again changes nothing. |
| Trie.Trie.Route | read_process_memory/crow/routing.h:614-735 | The trie, compressed or not, answers every URL with the rule and the captures that a plain scan over all rules added ends with, or with index 0 if no rule matches. |
| Trie.CompressionKeepsRouting | read_process_memory/crow/routing.h:601-735 | Every URL gets the same index before and after compression, and the same captures if the index is not 0. |
| Trie.CompressTwice | read_process_memory/crow/routing.h:601-612 | A second compression leaves the nodes as they are. |
| Redirects.TokenizeSlash | read_process_memory/crow/routing.h:886-899 | A rule with a slash at its end has the tokens of the rule without it, and the slash; one is well formed if and only if the other is. |
| Redirects.RedirectLands | read_process_memory/crow/routing.h:637-732 | If a URL matches a stripped rule, the URL with a slash matches the rule with the slash, with the same captures, if and only if the rule has no path placeholder. |
| Redirects.RedirectLoops | read_process_memory/crow/routing.h:709-720 | A stripped rule with a path placeholder matches the URL with the slash again. |
| Redirects.NothingAfterPath | read_process_memory/crow/routing.h:709-720 | No URL at all matches a rule that has anything after a path placeholder. |
| Router.StrippedTokens | read_process_memory/crow/routing.h:893-898 | The tokens of a directory rule are those of its stripped form followed by a slash. |
| Router.Router.constructor | read_process_memory/crow/routing.h:862-864 | A new router has two unused rule slots and an empty trie. |
| Router.Router.AddRule | read_process_memory/crow/routing.h:886-899 | The rule gets the next index; it is added, with its stripped form under the redirect index if it ends in a slash, if and only if neither token sequence is there already. |
| Router.Router.Validate | read_process_memory/crow/routing.h:901-914 | Compressing the trie changes neither the rules nor what the trie holds. |
| Router.Router.Handle | read_process_memory/crow/routing.h:981-1045 | The answer is 404 if no rule matches, the redirect to the URL with a slash if the best match is a stripped rule, and otherwise the rule with its captures if it allows the method, else 404; the rule index is always in range. |
| Router.RedirectAnswers | read_process_memory/crow/routing.h:998-1014 | A redirect is owed to a rule of the list; without a path placeholder the new URL matches that rule, with one it never does and the new URL is redirected again. |
| Router.RedirectExample | read_process_memory/crow/routing.h:981-1014 | A router with the one rule <path>/ answers the URL /a with a redirect to /a/, and that with a redirect again. |
| RouteArgs.ClosingTag | read_process_memory/crow/utility.h:53-56 | The closing bracket found is the first one from the position on. |
| RouteArgs.TagCodeIs | read_process_memory/crow/utility.h:215-235 | The placeholder recognised at a position is the one the trie recognises there, and its closing bracket is where the trie goes on. |
| RouteArgs.TagIsEncoding | read_process_memory/crow/utility.h:215-235 | The tag of a well-formed rule is the base-6 number of its placeholder types, cut to 64 bits. |
| RouteArgs.DecodeOfEncode | read_process_memory/crow/utility.h:301-313 | Unpacking the uncut number gives back the type list. |
| RouteArgs.NoAlias | read_process_memory/crow/utility.h:301-313 | Two numbers a multiple of 2^64 apart never unpack to the same type list. |
| RouteArgs.DecodeExact | read_process_memory/crow/utility.h:215-235 | The cut tag unpacks to the placeholder types if and only if the uncut number is below 2^64. |
| RouteArgs.TwentyFourFit | read_process_memory/crow/utility.h:215-235 | Up to 24 placeholders always fit. |
| RouteArgs.StringRuleExact | read_process_memory/crow/utility.h:215-235 | Of the rules made of string segments, the tag unpacks to the types of its placeholders if and only if there are at most 24: with 25 it has wrapped around. |
| RouteArgs.CallReadsBack | read_process_memory/crow/routing.h:93-153 | Captures pushed on four typed stacks are read back by the counters in their own order, whatever was on the stacks before. |
| RouteArgs.MatchKinds | read_process_memory/crow/routing.h:637-720 | Every placeholder captures a value of its own argument type. |
| RouteArgs.ArgumentsArrive | read_process_memory/crow/routing.h:93-153 | If the tag fits 64 bits, argument i of the handler is the capture of placeholder i. |
| MustacheTree.NestFits | read_process_memory/crow/mustache.h:146-269 | A balanced stretch of actions is a tree whose fragments are in the text. |
| MustacheRender.SplitName | read_process_memory/crow/mustache.h:87-98 | The parts of a dotted name are the texts between its dots. |
| MustacheRender.WalkDown | read_process_memory/crow/mustache.h:102-118 | Following the parts finds the value at the end of the path if and only if every part is there. |
| MustacheRender.FindContext | read_process_memory/crow/mustache.h:67-126 | The value found is that of the topmost context in which the whole path is there; if there is none, an empty string stands in. |
| MustacheRender.EscapeText | read_process_memory/crow/mustache.h:128-144 | The escaped text is the text with its six special characters replaced one by one. |
| MustacheRender.EscapeExact | read_process_memory/crow/mustache.h:128-144 | Escaping can be undone, and leaves none of the characters that HTML gives a meaning except the ampersands of its entities. |
| MustacheRun.Rendering.RenderFragment | read_process_memory/crow/mustache.h:270-283 | The fragment is added to the output with its lines indented, but nothing after the end of the template. |
| MustacheRun.RestBlock | read_process_memory/crow/mustache.h:192-258 | What is still to be rendered at a block is its own text and what comes after its close. |
| MustacheRun.RestEnter | read_process_memory/crow/mustache.h:192-258 | Pushing a context and going on inside a block leaves the same to be rendered as the block and what follows it. |
| MustacheRun.RestClose | read_process_memory/crow/mustache.h:259-261 | At the close of a block, popping the context leaves what comes after it. |
| MustacheRun.RepeatOnce | read_process_memory/crow/mustache.h:243-248 | A block shown with one context is its inside rendered with that context on the stack. |
| MustacheRun.Rendering.RunSimple | read_process_memory/crow/mustache.h:160-191 | A comment, delimiter change or variable moves its text to the output, or fails if the tree has no text. |
| MustacheRun.Rendering.RunClose | read_process_memory/crow/mustache.h:259-261 | A close pops exactly the context its block pushed. |
| MustacheRun.Rendering.RunBlock | read_process_memory/crow/mustache.h:192-258 | A block is skipped, entered once or run once per item, as its tree says, and a failure is one of the tree. |
| MustacheRun.Rendering.RunList | read_process_memory/crow/mustache.h:233-242 | A list block renders its inside once per item in order and restores the stack. |
| MustacheRun.Rendering.RenderInternal | read_process_memory/crow/mustache.h:146-269 | The interpreter with its jumps ends, succeeds if and only if the tree of nested blocks has a text, adds exactly that text to the output, and restores the context stack. |
| MustacheTemplate.Template.Render | read_process_memory/crow/mustache.h:295-303 | Rendering a compiled template gives the text of its tree in the given context, or fails if the tree has none. |
| MustacheTags.FindFrom | read_process_memory/crow/mustache.h:317-327 | A search finds the first place from the position on, or nothing if there is none. |
| MustacheTags.ReadTagFits | read_process_memory/crow/mustache.h:338-443 | The name of a tag lies between its delimiters, and reading goes on behind the tag. |
| MustacheBlocks.TagFits | read_process_memory/crow/mustache.h:315-443 | A fragment ends at the first opening delimiter, and the name of the tag lies behind it. |
| MustacheBlocks.Tiles | read_process_memory/crow/mustache.h:315-444 | Fragments and tags, joined in their order, are the text read so far, without a gap or an overlap. |
| MustacheTemplate.ReadTiles | read_process_memory/crow/mustache.h:307-444 | What the scan has read, fragments and tags in their order followed by the rest of the text, is the whole text. |
| MustacheBlocks.OpenClosed | read_process_memory/crow/mustache.h:347-364 | Closing the innermost open block makes it name its close, the close name it, and keeps the nesting strict. |
| MustacheBlocks.ClosesInside | read_process_memory/crow/mustache.h:347-364 | In a balanced stretch every close belongs to a block of the stretch. |
| MustacheTemplate.Template.Trim | read_process_memory/crow/mustache.h:342-343 | Dropping spaces gives the bounds of the name between them. |
| MustacheTemplate.Template.ReadNameOf | read_process_memory/crow/mustache.h:340-346 | The name of a tag is what is left between the spaces. |
| MustacheTemplate.Template.SplitAtSpaces | read_process_memory/crow/mustache.h:415-434 | The new delimiters are the texts around the first stretch of spaces; they are refused if there is none, if one is empty, or if the second has a space. |
| MustacheTemplate.Template.ReadDelims | read_process_memory/crow/mustache.h:402-436 | A delimiter change gives the two texts between its equal signs. |
| MustacheTemplate.Template.ReadTagAt | read_process_memory/crow/mustache.h:338-443 | A tag is read as the kind its first character names, or refused for the fault it has. The contract equates the method with a reference reading of the same shape; that a tag read this way tiles the text is MustacheBlocks.TagFits. |
| MustacheTemplate.Template.Scan | read_process_memory/crow/mustache.h:314-444 | Reading stops at the end of the text or at the first fault, with the exception the code throws for it; what was read tiles the text, and its blocks nest. |
| MustacheStandalone.OnlyBlanksRemoved | read_process_memory/crow/mustache.h:446-500 | The standalone pass takes only spaces from the end of a fragment, and only spaces and one line break from its beginning. |
| MustacheStandalone.BoundsExact | read_process_memory/crow/mustache.h:446-500 | A fragment keeps its beginning before its end if and only if it is not cut inside a carriage return and line feed that the next tag shares. |
| MustacheStandalone.SplitNeedsLineFeed | read_process_memory/crow/mustache.h:446-500 | Such a cut needs an opening delimiter that begins with a line feed. |
| MustacheTemplate.Template.AloneOnLine | read_process_memory/crow/mustache.h:454-486 | Finds out whether a tag stands alone on its line in the text as read, although later fragments are trimmed already. |
| MustacheTemplate.Template.LineBefore | read_process_memory/crow/mustache.h:456-467 | The line before a tag is blank if only spaces lead up to it from a line feed or the beginning of the text. |
| MustacheTemplate.Template.LineAfter | read_process_memory/crow/mustache.h:468-486 | The line after a tag is blank if only spaces lead to a line break or the end of the text. |
| MustacheTemplate.Template.RemoveStandalone | read_process_memory/crow/mustache.h:447-500 | The step for one tag trims exactly the fragments around it. |
| MustacheTemplate.Template.RemoveStandalones | read_process_memory/crow/mustache.h:447-500 | The pass trims every fragment as the lines of the untrimmed text say, and changes no action but the indentation of partials. |
| MustacheTemplate.Template.Compile | read_process_memory/crow/mustache.h:307-501 | Compilation is lossless and well nested: before trimming, the fragments and tags joined are the whole text; every block names its matching close, with equal names; the fragments are trimmed exactly as the untrimmed text says and are in bounds if and only if no line break is cut; a fault gives its exception. |
| MustacheTemplate.PlainDelimitersFit | read_process_memory/crow/mustache.h:446-500 | With delimiters that do not begin with a line feed, no line break is ever cut. |
| MustacheTemplate.SplitBreakExample | read_process_memory/crow/mustache.h:446-500 | A template that compiles although a line break is cut: the second fragment then begins behind its end, so the compiled template is not in bounds. |
| JsonText.CodeBytesAreUtf8 | read_process_memory/crow/json.h:368-387 | The bytes written for a code below 65536 are its UTF-8 form of section 3 of RFC 3629: reading them gives the code and their number back. |
| JsonText.UnescapeEscape | read_process_memory/crow/json.h:35-68 | Any bytes written with escapes are well escaped, and resolving the escapes gives the bytes back. |
| JsonRead.StringIsEscaped | read_process_memory/crow/json.h:715-775 | What is accepted as the inside of a string has only escapes that can be resolved. |
| JsonDump.QuotedText | read_process_memory/crow/json.h:1364-1369 | A written string is read up to its own closing quote, as the string written. |
| JsonDump.RoundTrip | read_process_memory/crow/json.h:1370-1426 | Reading a written document at any place of a text gives the document and ends where it ends, at any depth. |
| JsonDump.ReadDump | read_process_memory/crow/json.h:1051-1059 | A text written for a document without numbers is accepted as a whole and read as that document. |
| JsonDump.DumpInternal | read_process_memory/crow/json.h:1370-1426 | The text appended is that of a document of the value, with the fields of objects in some order. |
| JsonDump.DumpAll | read_process_memory/crow/json.h:1385-1403 | The items of a list are written in their order, with commas between them. |
| JsonDump.DumpFields | read_process_memory/crow/json.h:1404-1424 | Every field of an object is written once, in whatever order the map gives them. |
| JsonLoad.HoldsSame | read_process_memory/crow/json.h:735-987 | What a handle stands for depends on its own part of the buffer only. |
| JsonBuffer.Buffer.constructor | read_process_memory/crow/json.h:1065-1070 | The text is copied with a NUL behind it. |
| JsonBuffer.Buffer.UnescapeAt | read_process_memory/crow/json.h:338-401 | On any accepted string the escapes are resolved in place: the new end is not behind the old one, the text is the resolved string, the rest of the buffer stays, and a second call changes nothing. |
| JsonBuffer.Buffer.ResolveAll | read_process_memory/crow/json.h:342-396 | The write cursor never passes the read cursor, and behind it stands the resolution of what was read. |
| JsonBuffer.Buffer.ResolveOne | read_process_memory/crow/json.h:346-395 | One character or escape is read and its bytes written, nothing else. |
| JsonBuffer.Buffer.WriteCode | read_process_memory/crow/json.h:368-387 | A code is written as its one, two or three bytes, as a function of the same shape gives them; that they are UTF-8 is JsonText.CodeBytesAreUtf8. |
| JsonBuffer.Buffer.WsSkip | read_process_memory/crow/json.h:710-713 | The cursor stops at the first character that is no white space. |
| JsonBuffer.Buffer.Consume | read_process_memory/crow/json.h:702-708 | The cursor moves on if and only if the character is the expected one. |
| JsonBuffer.Buffer.StringLoop | read_process_memory/crow/json.h:719-773 | The closing quote is found if and only if the text up to it is a string, and the flag tells whether it has escapes. |
| JsonBuffer.Buffer.DecodeString | read_process_memory/crow/json.h:715-775 | A string is accepted as the grammar says; its handle stands for the unescaped text, and the text still to come is untouched. |
| JsonBuffer.Buffer.DecodeNumber | read_process_memory/crow/json.h:817-933 | A number is accepted as the transition tables say, and its handle is its text. |
| JsonBuffer.Buffer.SkipDigits | read_process_memory/crow/json.h:859-859 | Going over a row of digits at once has the effect of going over them one by one. |
| JsonBuffer.Buffer.DecodeValue | read_process_memory/crow/json.h:935-987 | A value is accepted if and only if the reference reader accepts it there; the cursor ends behind it, its handle stands for it in the part of the buffer it was read from, and the text before and after is untouched. |
| JsonBuffer.Buffer.DecodeTrue | read_process_memory/crow/json.h:945-955 | The word true, and nothing else that begins with its first letter. |
| JsonBuffer.Buffer.DecodeFalse | read_process_memory/crow/json.h:956-967 | The same for the word false. |
| JsonBuffer.Buffer.DecodeNull | read_process_memory/crow/json.h:968-978 | The same for the word null. |
| JsonBuffer.Buffer.DecodeList | read_process_memory/crow/json.h:777-815 | The same for a list. |
| JsonBuffer.Buffer.DecodeItems | read_process_memory/crow/json.h:792-813 | The items stand side by side in the buffer and stand for the items read; they are collected in the growing array of JsonItems. |
| JsonBuffer.Buffer.DecodeItem | read_process_memory/crow/json.h:792-813 | One round of the loop adds the next item to the array, side by side with those before it, and leaves them standing for what was read. |
| JsonBuffer.Buffer.DecodeObject | read_process_memory/crow/json.h:989-1049 | The same for an object. |
| JsonBuffer.Buffer.DecodeEntries | read_process_memory/crow/json.h:1006-1047 | The entries stand side by side, with their keys resolved, collected in the growing array of JsonItems. |
| JsonBuffer.Buffer.DecodeOneEntry | read_process_memory/crow/json.h:1006-1047 | One round of the loop adds the next entry, with its key resolved, and leaves those before it standing for what was read. |
| JsonBuffer.Buffer.DecodeKey | read_process_memory/crow/json.h:1008-1023 | A key is accepted with its colon and resolved at once, without touching the text to come. |
| JsonBuffer.Buffer.DecodeEntry | read_process_memory/crow/json.h:1008-1034 | One entry is accepted as key, colon and value. |
| JsonBuffer.Buffer.Parse | read_process_memory/crow/json.h:1051-1059 | A text is accepted if and only if it is one value with nothing but white space around it, and the handle stands for it. |
| JsonBuffer.Buffer.Convert | read_process_memory/crow/json.h:1103-1133 | Converting a handle resolves its strings in place and gives the value it stands for, touching its own part of the buffer only. |
| JsonBuffer.Buffer.ConvertItems | read_process_memory/crow/json.h:1118-1123 | Items are converted in their order. |
| JsonBuffer.Buffer.ConvertEntry | read_process_memory/crow/json.h:1129-1130 | The value of an entry is converted in its own part of the buffer. |
| JsonBuffer.Buffer.ConvertEntries | read_process_memory/crow/json.h:1124-1131 | Of entries with the same key the first is kept. |
| JsonBuffer.Load | read_process_memory/crow/json.h:1065-1076 | Loading a text gives the value of the document the reference reader reads in it, or fails if it reads none. |
| JsonBuffer.DumpAndLoad | read_process_memory/crow/json.h:1428-1434 | Dumping a value without numbers, loading the text in place and converting gives the same value back, whatever its bytes, fields and depth. |
| JsonItems.Items.constructor | read_process_memory/crow/json.h:574-577 | A new container is empty. |
| JsonItems.Items.EmplaceBack | read_process_memory/crow/json.h:574-592 | One item is added at the end and all others stay, whether or not the storage grows, and the 16-bit counter of free places never overflows. |
| QueryText.DecodeShrinks | read_process_memory/crow/query_string.h:141-167 | A decoded value is no longer than its text, so decoding never reaches the delimiter behind it. |
| QueryString.QueryString.constructor | read_process_memory/crow/query_string.h:285-295 | The pairs of the text are found and decoded in place. |
| QueryString.QueryString.Decode | read_process_memory/crow/query_string.h:141-167 | The value is decoded in place and ended by a NUL, and nothing else in the buffer changes. |
| QueryString.QueryString.DecodePair | read_process_memory/crow/query_string.h:124-131 | The value of one pair is decoded and nothing outside the pair changes. |
| QueryString.OthersStay | read_process_memory/crow/query_string.h:122-131 | Decoding one pair leaves the earlier pairs decoded and the later ones as they were written. |
| QueryString.StartsApart | read_process_memory/crow/query_string.h:111-119 | The next pair begins behind the ampersand that ends this one. |
| QueryString.QueryString.FindPairs | read_process_memory/crow/query_string.h:104-120 | The pairs begin behind the first question mark or hash and behind every ampersand after it. |
| QueryString.QueryString.FirstOf | read_process_memory/crow/query_string.h:104-126 | strcspn finds the first of the given characters or the end of the text. |
| QueryString.QueryString.Parse | read_process_memory/crow/query_string.h:97-138 | The table holds the beginning of every pair, each with its value decoded. |
| QueryString.QueryString.Compare | read_process_memory/crow/query_string.h:49-94 | For any name, a pair compares equal if and only if the name fits its key: a name without escapes and without characters that end a key has to be all of the decoded key; any other is read up to such a character, a malformed escape or a NUL, and so is the key. |
| QueryString.FitsStep | read_process_memory/crow/query_string.h:49-94 | One more character of name and key decides against the pair, ends the comparison as equal, or leaves the question to what follows. |
| QueryText.PlainFits | read_process_memory/crow/query_string.h:49-94 | A name without percent, plus, equal, ampersand and hash signs fits exactly the keys that decode to it. |
| QueryText.FitsKey | read_process_memory/crow/query_string.h:49-94 | A key without malformed escapes is fitted according to what it decodes to. |
| QueryString.ValueFollows | read_process_memory/crow/query_string.h:185-190 | What follows the first equal sign of a pair in the decoded buffer is its decoded value. |
| QueryString.QueryString.ValuePlace | read_process_memory/crow/query_string.h:185-190 | The place found is where the value of the pair can be read. |
| QueryString.QueryString.Lookup | read_process_memory/crow/query_string.h:170-198 | For any name, the n-th pair whose key it fits is found if there are that many, else nothing. |
| QueryString.QueryString.Get | read_process_memory/crow/query_string.h:316-320 | For any name, get gives the decoded value of the first pair whose key it fits, or nothing if there is none. |
| QueryString.QueryString.GetList | read_process_memory/crow/query_string.h:322-337 | For any name, get_list gives, in order, the decoded values of all pairs whose key the name with brackets after it fits. |
| QueryEncode.EncodedAt | read_process_memory/crow/query_string.h:141-167 | A percent-encoded text in front of a delimiter is read back as a key and as a value. |
| QueryEncode.PairAt | read_process_memory/crow/query_string.h:97-138 | An encoded pair is read back as its key and value, and ends where it was written to end. |
| QueryEncode.QueryAt | read_process_memory/crow/query_string.h:97-138 | The pairs of an encoded query are found in their number and order, each with its key and value. |
| QueryEncode.QueryRoundTrip | read_process_memory/crow/query_string.h:97-138 | A URL with an encoded query has exactly the pairs that were encoded, in their order. |
| QueryLookup.MatchingValues | read_process_memory/crow/query_string.h:170-198 | The pairs found for a name have, in order, the values written under the keys it fits. |
| QueryLookup.PlainValues | read_process_memory/crow/query_string.h:170-198 | For a plain name these are the values written under the name itself. |
| QueryLookup.EncodedKeyFits | read_process_memory/crow/query_string.h:49-94 | Any key without a NUL can be looked up by its encoded form, which fits this key and no other. |
| QueryLookup.LookUp | read_process_memory/crow/query_string.h:285-337 | Of a URL with up to 256 encoded pairs, get finds, for any name, the first value written under a key the name fits, or nothing, and get_list all those written under one that the name with brackets fits, in their order. |
| Sha1Standard.ZeroCountLeast | read_process_memory/crow/TinySHA1.hpp:84-95 | No smaller number of zero bytes fills the block up to the length. |
| Sha1.RotationsAgree | read_process_memory/crow/TinySHA1.hpp:35-37 | Rotating with exclusive or is the rotation of section 3.2 of FIPS 180-4. |
| Sha1.ChoicesAgree | read_process_memory/crow/TinySHA1.hpp:162-174 | The round functions with or are Ch and Maj of section 4.1.1 of FIPS 180-4. |
| Sha1.BytesOfWord | read_process_memory/crow/TinySHA1.hpp:112-135 | The four bytes written for a word give the word back. |
| Sha1.SHA1.constructor | read_process_memory/crow/TinySHA1.hpp:38-38 | A new hash has processed nothing. |
| Sha1.SHA1.Reset | read_process_memory/crow/TinySHA1.hpp:48-57 | After a reset nothing has been processed: the state is the initial hash value of section 5.3.1 of FIPS 180-4. |
| Sha1.SHA1.ProcessByte | read_process_memory/crow/TinySHA1.hpp:58-66 | One byte more has been processed: the digest is the hash of all full blocks, and the block holds the rest, also across a block boundary. |
| Sha1.SHA1.ProcessBytes | read_process_memory/crow/TinySHA1.hpp:67-80 | All bytes of a range have been processed in their order. |
| Sha1.SHA1.LoadWord | read_process_memory/crow/TinySHA1.hpp:142-147 | Four bytes are taken as one big-endian word, as a function of the same shape gives it; that these are the words of the standard is Sha1.SHA1.Schedule and, for whole messages, Sha1.HashPieces. |
| Sha1.SHA1.Schedule | read_process_memory/crow/TinySHA1.hpp:141-150 | The 80 words are the message schedule of section 6.1.2 of FIPS 180-4. |
| Sha1.SHA1.FunctionAndConstant | read_process_memory/crow/TinySHA1.hpp:159-174 | Function and constant of a round are those of sections 4.1.1 and 4.2.1 of FIPS 180-4. |
| Sha1.SHA1.OneRound | read_process_memory/crow/TinySHA1.hpp:158-181 | One round of the loop is a round of the standard. |
| Sha1.SHA1.AllRounds | read_process_memory/crow/TinySHA1.hpp:152-181 | The loop is the 80 rounds of the standard. |
| Sha1.SHA1.ProcessBlock | read_process_memory/crow/TinySHA1.hpp:140-188 | The digest becomes the hash of the block on top of the digest before. |
| Sha1.SHA1.FillBlock | read_process_memory/crow/TinySHA1.hpp:85-87 | Zeros are processed up to the block boundary. |
| Sha1.SHA1.FillTo56 | read_process_memory/crow/TinySHA1.hpp:88-95 | Zeros are processed up to the place of the length. |
| Sha1.SHA1.WriteLength | read_process_memory/crow/TinySHA1.hpp:96-103 | Four zero bytes and the low 32 bits of the length are processed. |
| Sha1.SHA1.GetDigest | read_process_memory/crow/TinySHA1.hpp:81-107 | For a message of any length the digest is the hash of the message with the padding the code appends; below 2^29 bytes that is SHA-1 of the message, padded by section 5.1.1 and hashed by section 6.1.2 of FIPS 180-4. |
| Sha1.SHA1.GetDigestBytes | read_process_memory/crow/TinySHA1.hpp:108-137 | The 20 bytes are the digest, word by word, most significant byte first, of the message with the padding the code appends; below 2^29 bytes they are SHA-1 of the message. |
| Sha1.DigestBytes | read_process_memory/crow/TinySHA1.hpp:111-136 | The same for any digest. |
| Sha1.PaddingsAgree | read_process_memory/crow/TinySHA1.hpp:81-103 | The padding the code appends is that of section 5.1.1 of FIPS 180-4 if and only if the message has fewer than 2^29 bytes. |
| Sha1.HashPieces | read_process_memory/crow/TinySHA1.hpp:58-107 | However a message of any length is cut into pieces, its digest is the hash of the whole message with the padding the code appends; below 2^29 bytes that is SHA-1 of the message. |
| Timers.DueIsOrdered | read_process_memory/crow/dumb_timer_queue.h:42-62 | The timers to be called are those not cancelled, each once, in the order of adding. |
| Timers.Guarantees | read_process_memory/crow/dumb_timer_queue.h:21-62 | In every run: a timer is called at most once, in the order of adding, never before 5 seconds, never after it was cancelled, and everything passed over without a call was cancelled. |
| Timers.FirstIsDueFirst | read_process_memory/crow/dumb_timer_queue.h:48-52 | If the first timer in the queue is not due, none is. |
| Timers.TimerQueue.constructor | read_process_memory/crow/dumb_timer_queue.h:69-78 | A new queue has no timers and no io service. |
| Timers.TimerQueue.SetIoService | read_process_memory/crow/dumb_timer_queue.h:64-67 | The queue is switched on. |
| Timers.TimerQueue.Add | read_process_memory/crow/dumb_timer_queue.h:33-40 | The timer is waiting, and its key holds the number of timers added before it. |
| Timers.TimerQueue.Cancel | read_process_memory/crow/dumb_timer_queue.h:21-31 | A waiting timer is cancelled; a key whose timer was popped, or that was used before, changes nothing. |
| Timers.TimerQueue.PopFirst | read_process_memory/crow/dumb_timer_queue.h:53-60 | A due timer leaves the front of the queue; it is called now unless it was cancelled. |
| Timers.TimerQueue.Process | read_process_memory/crow/dumb_timer_queue.h:42-62 | Exactly the timers that are due leave the queue, in order, and those not cancelled are called now; with an io service none that is due remains, without one nothing happens. |

## Left out

Parts of the repository:

- The process-memory reader, the radar player and its canvas (`BFTypes.h`, `LazyReaders.h`, `RadarPlayer.*`, `drawmap.js`): foreign calls and look-ups.
- Sockets, threads, logging, dates, connections, the `app` class and the generated headers around them: input and output.
- WebSocket frames (`websocket.h`): continuation frames are taken as text and a payload read in part is not resumed, so reassembly has no property to prove.
- The response side of the HTTP parser, pausing, callbacks that return an error or ask to skip the body, and the status callback.
- `Router::handle_upgrade`, `DynamicRule` (its compatibility check takes both digits from the same tag, so no agreement of types follows) and rules that replace themselves on `upgrade`.
- Mustache partials: they are read by the compiler, but a template with one is not rendered.
- Lookup in JSON handles by key, numeric conversion of JSON values, ownership of strings, `estimate_length`, and building values with `operator[]`.
- `qs_scanvalue`, and copying or moving a `query_string`.
- Copying a SHA-1 state, and the base-64 encoder.

What the model does not capture of the parts it has:

- Bytes are characters; a character above 255 is treated as a byte above 127. Integers are unbounded except where the code depends on their width: lengths of 64 bits, the header index of 8 bits, tags of 64 bits, 16-bit ports, the 32-bit index of a cancelled timer, SHA-1 words.
- Strings that have been moved from are empty. The order in which an unordered map is visited is arbitrary.
- The header multimap is the sequence of its insertions.
- HttpParser.Parser.Execute: an upgrade ends the call behind the head, as the code does; what a caller then does with the connection is not modelled. After a failure the delivered data misses what was still marked, as in the code.
- HttpPrinter.ParserUndoesPrinter: the serialiser prints no CONNECT and no Upgrade header, and the headers that frame the body only as it needs them itself (another Transfer-Encoding than chunked may be given); values are not empty; each head fits the 80 KB that the message before it leaves; trailers are not printed.
- HttpMessage.RoundTrip: the same restrictions, and no empty piece, which would end the stream. Query parameters of a message are modelled separately.
- HttpSplit.ParserUrl.ParseUrl: the URL has at most 65535 bytes, because fields are 16 bits wide, and the caller has zeroed the result. strtoul stops at the end of the text.
- Trie.Trie.Add: every `<` begins a known placeholder, because an unknown one makes the code loop forever; rules are added before the trie is compressed, and with an index that is not 0.
- Router.Router.AddRule: the same restrictions.
- Trie.Trie.Find: the number scanners strtoll, strtoull and strtod are parameters: no number, or a value and an end behind the start.
- Redirects.RedirectLands: the scanners read a number the same when a slash follows the text.
- RouteArgs.ArgumentsArrive: the type list fits 64 bits, which is also necessary for the types to be recovered.
- MustacheTemplate.Template.Compile: a close without an open block, a block left open and a name made of spaces are not looked for by the code; the model stops there with an outcome of its own.
- MustacheTemplate.Template.Render: there are no partials, and no fragment begins behind its end. What was written before an exception is lost with the output.
- JsonBuffer.DumpAndLoad: there are no numbers in the value, because printing with six digits loses some. A number is kept as its text.
- JsonBuffer.Load: a NUL in the text ends it. A handle is not copied before its string is unescaped.
- QueryString.QueryString.constructor: there are at most 256 pairs; with more the code writes the count past its table.
- QueryString.QueryString.Compare: the second character behind a percent sign is looked at only if the first is a hexadecimal digit, so that nothing behind the closing NUL is read.
- Timers.TimerQueue.Add: fewer than 2^31 timers are added in all, and the clock never goes back.
- Timers.TimerQueue.Cancel: the key was returned by this queue.
- Timers.TimerQueue.Process: handlers do not touch the queue.
