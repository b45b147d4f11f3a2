# Fion, verified

Fion is a small HTTP server library in C++20. This project models what happens
between accepting a socket and sending a reply, and proves properties of that model:

- **URLs** (`UrlSpec`, `UrlClass`, `UrlProofs`, `UrlLaws`): the staged in-place parser and
  the printer, proved equal to functions on values; equations that say of every text what
  it is parsed to, or why it is refused; the exact set of URLs on which parser and printer
  are inverse; which parse results fall outside it.
- **Messages** (`HttpHeaders`, `Message`, `Framing`): header blocks, response
  serialisation, the cut of a request into start line, headers and body with 64-bit
  `size_t` arithmetic, and the readiness test on a growing buffer, including `stoull`.
- **Routing** (`Routing`): path segments, pattern matching, first-match lookup, groups
  and resources.
- **Requests and connections** (`Requests`, `Connections`): from received bytes to the
  prepared reply, and what every sequence of polled events does to a connection.
- **Thread pool** (`ThreadPools`): mutex, condition variable and stop flag as
  interleaved steps, with spurious wakeups.
- **Ownership** (`Ownership`, `PoolManagers`, `Service`): the accept thread and the pools'
  threads over descriptors that the kernel hands out again, round-robin distribution, and
  runs that show service and its end to be possible from every reachable state.
- **Serving** (`Serving`, `Answering`): connections and owners put together, so that
  replies go to the use of a descriptor whose bytes they answer, and can go there.

`Text` holds the parts of `std::string`, `std::getline` and `std::map` that the code
relies on. A character stands for a byte, `tolower` is that of the "C" locale, and a map
is printed in the ascending key order of `std::map`.

Where the source changes state, the model has a class with the same fields, and each
method is proved to compute a function of the old state; the theorems are about those
functions. Where threads interleave, the model is a state machine whose steps are the
critical sections and system calls, and the theorems are about every reachable state.

Exceptions are values: `Err`, `None` or `Threw`. What `recv`, `send`, `accept`, the
poller, the scheduler, regular expressions, handlers and middleware do is a parameter
or a free choice of a step.

## Where a promise holds only under a condition

- Printing and parsing a URL are inverse exactly on `UrlProofs.Canonical`. A parse result
  fails it only for the parameter with empty key and empty value; for an authority whose
  printed form names another one, which is a port without a domain, an explicit port 0, a
  domain with `@`, or an unbracketed domain with `:` whose port is the one implied by its
  scheme; or for text that begins with `://` when its URL has a domain or a field that
  holds `://`. With a port that is printed, a domain with `:` does come back, so
  the set is wider than "domains free of `:`".
- Printed headers come back exactly when no key holds a line feed or `": "` and no value
  holds a line feed. Through the cut of a whole message, the value of the greatest key
  must not end in `\r` either; the other values may. Header maps that
  fail these conditions and come back as others are given.
- A buffer becomes ready exactly at its last byte if and only if it is one whole message.
  A ready buffer stays ready whatever is received next if and only if it holds a
  `Content-Length:` somewhere, in its head or behind it. Accordingly, a stream that goes on
  behind a whole message is served with that message, for every cut into reads, if and
  only if the message has a Content-Length.
- A handler sees the length of the body it was given exactly when the last header line
  that names Content-Length carries the number announced by the first `Content-Length:` of
  the head: framing takes the first, the header map keeps the last.
- A pattern with the same parameter twice binds it to its last place, so filling it in
  again gives the path back only if the places agree.
- Joining two paths joins their segments exactly when a slash or nothing stands at the
  seam. Without one a group prefix and a pattern lose a segment, so a group matches in two
  parts exactly when its patterns join its prefix.
- A thread pool created with no threads never runs a task, so draining on destruction
  needs at least one thread, or no accepted task; a destroyed pool with a task that never
  ran is reachable.

The documentation describes wildcard patterns, `poll(2)` and a single-threaded event
loop. The code has no wildcards outside regular expressions and runs one event loop per
pool thread; the model follows the code.

## Model

| member | source | states |
|---|---|---|
| `UrlClass.URL.constructor` | sources/http/URL.cpp:157-158 | a default URL is path `/` and nothing else |
| `UrlClass.URL.Parse` | sources/http/URL.cpp:160-179 | the in-place stages end with exactly the parsed value in the fields, or with the error of the first stage that fails |
| `UrlClass.URL.ParseScheme` | sources/http/URL.cpp:43-61 | the first `://` anywhere ends the scheme, which is lower-cased; without one, a leading `/` means no scheme and anything else means http |
| `UrlClass.URL.ParseFragment` | sources/http/URL.cpp:63-69 | the first `#` after the scheme splits the working text into what remains and the anchor |
| `UrlClass.URL.ParseQueryString` | sources/http/URL.cpp:71-80 | the first `?` after the scheme splits the working text, and its tail is read into the parameters |
| `UrlClass.URL.StoreParameters` | sources/http/URL.cpp:79-91 | the getline loop stores the parameters one after the other, the later of two equal keys winning |
| `UrlClass.URL.StoreParameter` | sources/http/URL.cpp:82-90 | one parameter is cut at its first `=`; without one it is a key with an empty value, unless it is empty |
| `UrlClass.URL.ParseAuthorityAndPath` | sources/http/URL.cpp:94-116 | the text up to the first `/`, less its userinfo, is the authority, the rest the path |
| `UrlClass.URL.ParseHostPort` | sources/http/URL.cpp:118-155 | a bracketed literal ends at its first `]`, a host at its last `:`; a missing port is implied by the scheme, a bad one is an error |
| `UrlClass.URL.ToString` | sources/http/URL.cpp:197-242 | the stream ends with the printed form of the fields |
| `UrlClass.URL.PrintParameters` | sources/http/URL.cpp:223-233 | the loop writes every parameter once, in key order, separated by `&` |
| `UrlClass.QueryTextSnoc` | sources/http/URL.cpp:223-233 | appending one more parameter to a printed query is printing the longer sequence |
| `UrlProofs.RoundTripIffCanonical` | sources/http/URL.cpp:160-242 | for every URL value, parsing what it prints gives back exactly that value if and only if it is canonical |
| `UrlProofs.PrintInjective` | sources/http/URL.cpp:197-242 | two canonical URLs that print the same are the same |
| `UrlProofs.ParsedIsWellShaped` | sources/http/URL.cpp:43-155 | whatever parses has a path beginning with `/`, no delimiter inside a component, and a lower-case scheme free of `://` |
| `UrlProofs.NormalForm` | sources/http/URL.cpp:43-155 | for every text that parses: its URL is canonical, and survives reprinting, if and only if it has no blank parameter, its authority is kept, and, should the text begin with `://`, it has no domain and no field holds `://` |
| `UrlProofs.ReprintMakesNoSeparator` | sources/http/URL.cpp:50-56 | a path-only URL free of `://` parses, and printing it with sorted, deduplicated parameters creates no `://` |
| `UrlProofs.ReprintAddsNoBlank` | sources/http/URL.cpp:160-242 | parsing and printing a URL never brings in white space that its text does not hold |
| `UrlProofs.AuthorityReadBack` | sources/http/URL.cpp:112-155 | the printed domain and port are read back as themselves if and only if the authority is kept |
| `UrlProofs.UserinfoLost` | sources/http/URL.cpp:112-116 | a domain with `@` is never read back |
| `UrlProofs.LiteralWithPort` | sources/http/URL.cpp:124-141 | a bracketed domain with a port is read back if and only if its only `]` is its last character |
| `UrlProofs.HostWithPort` | sources/http/URL.cpp:143-149 | an unbracketed domain with a printed port is read back whatever colons it holds |
| `UrlProofs.HostAlone` | sources/http/URL.cpp:134-154 | a domain printed without its port is read back if and only if the port is the implied one and no `:` or stray `]` misleads the parser |
| `UrlProofs.QueryReadBack` | sources/http/URL.cpp:71-92 | the printed query is read back as the same map, less the parameter with empty key and value |
| `UrlProofs.ParseQueryOfText` | sources/http/URL.cpp:79-91 | the same for any sequence of keys, read over parameters that are already there |
| `UrlProofs.ParseQueryClean` | sources/http/URL.cpp:79-91 | reading a query never stores a key or value holding one of its delimiters |
| `UrlProofs.SchemeOfPrinted` | sources/http/URL.cpp:43-49 | a printed lower-case scheme free of `://` is found again, whatever follows it |
| `UrlProofs.SchemelessReadBack` | sources/http/URL.cpp:51-60 | a URL without a scheme is read back only if it has no domain and prints no `://` |
| `UrlProofs.FieldsFreeIff` | sources/http/URL.cpp:217-239 | a URL without a domain prints a `://` behind its scheme if and only if its path, a key, a value or its anchor holds one |
| `UrlProofs.PortZeroIsLost` | sources/http/URL.cpp:146-149 | `http://a:0/` parses to a URL whose printed form parses to another one |
| `UrlProofs.LeadingSeparatorIsLost` | sources/http/URL.cpp:44-49 | `://a/` parses to a URL without a scheme whose printed form does not parse to it |
| `UrlLaws.SchemeLetters` | sources/http/URL.cpp:43-49 | the scheme is the text before the separator, with just the letters A to Z lowered |
| `UrlLaws.CaseLaw` | sources/http/URL.cpp:43-49 | the case of the scheme has no effect |
| `UrlLaws.NoSchemeLaw` | sources/http/URL.cpp:51-60 | a text without `://` is parsed as if it had none in front of it when it begins with `/`, and else as if `http://` stood there; the empty text is refused |
| `UrlLaws.UserinfoLaw` | sources/http/URL.cpp:112-116 | whatever stands before the first `@` of an authority has no effect, for every scheme, host and tail |
| `UrlLaws.HostLaw` | sources/http/URL.cpp:143-154 | a host without a port, alone or behind userinfo, becomes the domain, with port 443 for https and 80 otherwise, and changes nothing else |
| `UrlLaws.NoHostLaw` | sources/http/URL.cpp:118-122 | an authority that is empty behind its userinfo is as none |
| `UrlLaws.PortLaw` | sources/http/URL.cpp:143-149 | the text behind the last colon of a host must be digits of at most 65535 and becomes the port; otherwise the URL is refused, with the error its range decides |
| `UrlLaws.LiteralLaw` | sources/http/URL.cpp:124-141 | a bracketed literal ends at its first `]`; a port follows only right behind it, and anything else there is dropped |
| `UrlLaws.OpenLiteralLaw` | sources/http/URL.cpp:125-128 | a bracket that is not closed is refused |
| `UrlLaws.TailLaw` | sources/http/URL.cpp:63-110 | path, query and fragment: the first `#` and the first `?` before it cut them, and a missing path is `/` |
| `UrlLaws.QueryLaw` | sources/http/URL.cpp:79-91 | parameters joined by `&` are read one after the other |
| `UrlLaws.ParameterLaw` | sources/http/URL.cpp:82-90 | a parameter is cut at its first `=`; without one its value is empty, and an empty one is nothing |
| `HttpHeaders.Headers.Set` | sources/http/Headers.cpp:9-12 | one key is set, the others stay |
| `HttpHeaders.Headers.ParseFromRaw` | sources/http/Headers.cpp:62-78 | the line loop adds the headers of a block to those already there |
| `HttpHeaders.Headers.ParseLine` | sources/http/Headers.cpp:66-76 | one line is cut at its first `": "`, one trailing `\r` removed; a line without a delimiter changes nothing |
| `HttpHeaders.Headers.ToRawString` | sources/http/Headers.cpp:80-86 | the loop writes every header once, in key order |
| `HttpHeaders.ReadBackOverrides` | sources/http/Headers.cpp:62-86 | a printed block of clean headers, parsed over any headers, overrides exactly those it holds |
| `HttpHeaders.ReadBackIffClean` | sources/http/Headers.cpp:62-86 | a printed block gives its headers back if and only if they are clean |
| `HttpHeaders.DelimiterInKey` | sources/http/Headers.cpp:66-69 | a key that holds `: ` comes back cut at it: a concrete header map |
| `HttpHeaders.LineFeedInValue` | sources/http/Headers.cpp:65-77 | a value that holds a line feed comes back without what follows it: a concrete header map |
| `HttpHeaders.ParsedIsClean` | sources/http/Headers.cpp:62-78 | parsing any text never stores a key or value that a header line cannot carry |
| `HttpHeaders.ReadLine` | sources/http/Headers.cpp:65-77 | a printed line stores its value whole, even one ending in `\r`, and the loop goes on behind it |
| `HttpHeaders.LastLineWins` | sources/http/Headers.cpp:62-78 | for every text and key: the last line that names the key decides its value, and a key that no line names keeps what it had |
| `Message.ToRawResponse` | sources/http/Response.cpp:144-162 | status line, headers, blank line and body are written in order; an unknown status code throws |
| `Requests.StatusLineRead` | sources/http/Response.cpp:147-150 | read as words, a status line is version, decimal code and reason, in that order |
| `Message.StatusText` | sources/http/Response.cpp:5-137 | no reason phrase holds a line feed |
| `Message.KnownStatus` | sources/http/Response.cpp:5-137 | exactly which codes have a phrase; the others throw |
| `Message.HeadGeometry` | sources/network/Pool.cpp:115-140 | the blank line is the first line end or stands at least three bytes behind it |
| `Message.CutConserves` | sources/network/Pool.cpp:115-140 | the three parts and their delimiters are exactly the buffer; or there are no headers, the `size_t` length wraps, the header part runs over the body and parsing it still stores nothing |
| `Message.CutAtPoints` | sources/network/Pool.cpp:115-140 | the three parts in terms of the two cut points, wrapped or not |
| `Message.WrappedCut` | sources/network/Pool.cpp:138-140 | the wrapped length makes the header part CRLF and the whole body, and parsing stops at its first line |
| `Message.CutOfMessage` | sources/network/Pool.cpp:115-140 | the cut of a printed message with clean headers finds its start line, its block and its body |
| `Message.MessageRecoveredIff` | sources/network/Pool.cpp:115-143 | cut and header parsing recover start line, headers and body of a printed message, whatever the body holds, if and only if the headers are recoverable |
| `Message.ResponseRecoveredIff` | sources/http/Response.cpp:144-162 | the same for every response that can be printed |
| `Message.ReturnIsLost` | sources/http/Headers.cpp:71-73 | a single header whose value ends in `\r` survives as a block and loses that character in a whole message |
| `Message.ReturnIsLostOnce` | sources/http/Headers.cpp:71-73 | such a header, concretely: `a` with the value `x\r` |
| `Message.FirstBlankLine` | sources/network/Pool.cpp:128 | the first blank line of a head and a body stands at the end of the head |
| `Framing.ReadyExactlyAtEndIff` | sources/network/Client.cpp:89-138 | a text is ready as a whole and no proper prefix of it is, if and only if it is one whole message |
| `Framing.ChunkingIndependent` | sources/network/Client.cpp:89-138 | for every cut of a whole message into non-empty reads, the buffer is ready after the last and after no earlier one |
| `Framing.ReadyWithLength` | sources/network/Client.cpp:129-137 | with a length announced in the head, readiness is having received that many body bytes, whatever they are |
| `Framing.AnnouncedInHead` | sources/network/Client.cpp:103-120 | body bytes never change the length that the head announces |
| `Framing.ReadyIsKeptIff` | sources/network/Client.cpp:89-138 | a ready buffer stays ready whatever is received next if and only if it holds a `Content-Length:` |
| `Framing.ReadyIsKept` | sources/network/Client.cpp:103-137 | with a `Content-Length:` anywhere in a ready buffer, more bytes never make it unready |
| `Framing.OpenedIsNotReady` | sources/network/Client.cpp:103-118 | any buffer without one is made unready by an unfinished Content-Length line behind it |
| `Framing.ReadyIsNotAlwaysKept` | sources/network/Client.cpp:103-137 | a concrete ready buffer that a finished line makes unready |
| `Framing.AnnouncedText` | sources/network/Client.cpp:110-120 | the announced text is what stands on the line of the first Content-Length, behind any run of blanks and tabs |
| `Framing.DeclaredDecimal` | sources/network/Client.cpp:110-123 | a head whose first Content-Length carries digits, behind any run of blanks, announces the number they denote, or none at 2^64 and above |
| `Framing.StoullIff` | sources/network/Client.cpp:121-127 | a number is read from a text if and only if the text is white space, a sign or none, digits and anything, its magnitude fits 64 bits, and the number is its value, complemented when negative |
| `Framing.StoullOfNumeral` | sources/network/Client.cpp:121-127 | what is read from any such text, and the failure when its magnitude does not fit |
| `Framing.StoullOfDigits` | sources/network/Client.cpp:121-127 | a run of digits, leading zeros included, is read as its number up to 2^64 - 1 and refused above |
| `Framing.StoullOfNegative` | sources/network/Client.cpp:121-127 | a negative number is read as its 64-bit complement |
| `Framing.PrintedIsWholeIff` | sources/network/Client.cpp:89-138 | a printed message is one whole message if and only if its printed head announces the length of its body |
| `Framing.AnnouncedIsWhole` | sources/network/Client.cpp:89-138 | it is one when its headers announce that length in digits with nothing like Content-Length printed before, or announce nothing and the body is empty |
| `Framing.CutOfLonger` | sources/network/Pool.cpp:115-140 | bytes behind a complete head go to the end of the body and change neither start line nor parsed headers |
| `Framing.SeesBodyLengthIff` | sources/network/Client.cpp:103-127 | in a whole message the Content-Length that the handler sees is the length of the body it gets if and only if the head's last header line of that name carries the number that its first announces |
| `Framing.SecondLengthIsSeen` | sources/network/Client.cpp:103-127 | of two Content-Length lines the first frames the message and the second is what the handler sees |
| `Framing.OneByteSeenAsTwo` | sources/network/Client.cpp:103-127 | concretely: a whole message with one body byte whose handler sees the length 2 |
| `Routing.SplitPath` | sources/Router.cpp:21-30 | the index loop collects exactly the non-empty pieces between slashes |
| `Routing.SegmentsConcat` | sources/Router.cpp:21-30 | splitting `a + "/" + b` is splitting `a`, then `b` |
| `Routing.SegmentsSeamIff` | sources/Router.cpp:21-30 | splitting `a + b` is splitting both if and only if a slash or nothing stands at the seam |
| `Routing.SegmentsMerge` | sources/Router.cpp:21-30 | without one, exactly one segment is lost |
| `Routing.SegmentsOfPath` | sources/Router.cpp:21-30 | the segments of a path made of segments are those segments |
| `Routing.MatchPattern` | sources/Router.cpp:33-49 | the loop succeeds exactly when the pattern's segments match the path's, with exactly their bindings |
| `Routing.MatchMeaning` | sources/Router.cpp:38-48 | a match needs equally many segments and equal literals, and binds each key to the segment at its last place |
| `Routing.MatchIffInstance` | sources/Router.cpp:33-49 | a path matches with given bindings if and only if they bind just the pattern's keys and the pattern filled with them is the path, provided equal keys agree |
| `Routing.MatchInvertsInstantiation` | sources/Router.cpp:33-49 | for a pattern with distinct keys, matching is exactly the inverse of filling in the parameters |
| `Routing.RepeatedKeyLosesSegment` | sources/Router.cpp:33-49 | a pattern with the same parameter twice matches a path with two different segments, and its bindings give another path back |
| `Routing.InstanceMatches` | sources/Router.cpp:33-49 | filling a pattern's parameters by any non-empty slash-free values, one for each key, gives a path that matches with exactly those values |
| `Routing.LookupFound` | sources/Router.cpp:53-87 | a route is the answer, with bindings, if and only if it has the verb and its segments or its expression match with just those bindings, and every earlier route has another verb or does not match |
| `Routing.LookupThrew` | sources/Router.cpp:59-63 | the lookup throws if and only if the first route that is not skipped has a bad expression |
| `Routing.LookupNothing` | sources/Router.cpp:59-86 | it answers nothing if and only if every route has another verb or does not match |
| `Routing.FirstRouteMeaning` | sources/Router.cpp:53-87 | the lookup answers with the least route not passed over, and with what that route alone gives |
| `Routing.FoundIffLeast` | sources/Router.cpp:53-87 | a route with bindings is the answer if and only if it matches with them and every earlier route is passed over |
| `Routing.LaterRoutesDoNotInterfere` | sources/Router.cpp:13-17 | routes added later never change an answer that the earlier ones give, and decide exactly where those give none |
| `Routing.GroupMatch` | sources/Router.cpp:90-97 | a pattern that joins its group's prefix, a slash or nothing standing between them, matches exactly the paths whose segments split into a match of the prefix and one of the pattern, the pattern's bindings overriding |
| `Routing.GroupMatchIff` | sources/Router.cpp:90-97 | matching in two parts is right for every path if and only if the pattern joins the prefix |
| `Routing.GroupLookup` | sources/Router.cpp:53-97 | looking a path up in a registered group whose patterns join the prefix and are no regular expressions is stripping the prefix and looking the rest up in the group's own table: same route, its bindings overriding the prefix's |
| `Routing.ItemMatch` | sources/Router.cpp:105-107 | an item's pattern matches the collection's path followed by one segment, bound to `id` |
| `Routing.ResourceLookup` | sources/Router.cpp:99-108 | a resource answers its collection to GET and POST and one item to GET, PUT and DELETE, and nothing else |
| `Routing.Router.AddRoute` | sources/Router.cpp:13-17 | the route is appended, the others stay |
| `Routing.Router.FindRoute` | sources/Router.cpp:53-87 | the scan gives the handler, bindings and middleware of the first match; without a match, and on a throw, the outputs keep what they were given |
| `Routing.Router.Try` | sources/Router.cpp:60-84 | one round of the scan: another method or no match passes the route over, a bad expression throws, a match binds, and nothing leaks from one round to the next |
| `Routing.StoreMatch` | sources/Router.cpp:66-69 | the groups are stored under the keys that have one |
| `Routing.LastGroupStays` | sources/Router.cpp:66-69 | a key gets the group at the last place where it stands among those that have one |
| `Routing.OthersKept` | sources/Router.cpp:66-69 | parameters that are not among those keys stay as they were |
| `Routing.StoreGroupsBinds` | sources/Router.cpp:66-69 | what a match of an expression binds: just the keys that have a group, each its last, over what was there |
| `Routing.Router.AddGroup` | sources/Router.cpp:90-97 | the loop appends every route, in order, with the prefix before its pattern and the group's middleware behind its own, and nothing else changed |
| `Routing.Router.AppendMiddleware` | sources/Router.cpp:94 | group middleware goes behind route middleware, in order |
| `Routing.Router.AddResource` | sources/Router.cpp:99-108 | five routes are appended, all with the given handler and middleware |
| `Requests.ParamsArrive` | sources/network/Pool.cpp:179-181 | every route parameter reaches the handler as its own header, and no other header changes |
| `Requests.ReplyMeaning` | sources/network/Pool.cpp:145-197 | the reply to any request: the router is asked with the literal POST, PUT or DELETE and else with GET; no route or no handler is a 404; otherwise the handler replies to what the middleware, in order, made of the request labelled with the parameters, closing the connection, and there is no reply exactly when one of them throws |
| `Requests.StartLineReadBack` | sources/http/Request.cpp:29-54 | method, URL and version of a printed start line are read back |
| `Requests.StartLineRead` | sources/http/Request.cpp:29-54 | a start line is its first three words, whatever white space stands between them and whatever follows, and is accepted exactly when they are a method, a URL and a version |
| `Requests.StartLineTooShort` | sources/http/Request.cpp:29-54 | fewer than three words are refused |
| `Requests.Names` | sources/http/Request.cpp:6-27 | the nine method names, and nothing else, are methods; likewise for versions |
| `Requests.UnderstoodIffTransmissible` | sources/http/Request.cpp:64-84 | the bytes of a request are cut and parsed to that very request if and only if its URL is canonical and printed without white space and its headers are recoverable |
| `Requests.RequestUnderstood` | sources/network/Pool.cpp:109-208 | the bytes of such a request are answered by what its route, middleware and handler make of the request itself |
| `Requests.ProcessMeaning` | sources/network/Pool.cpp:109-208 | what is prepared for any bytes at all: a 400 without a blank line, a 500 for what is not understood, for what throws and for a status without a name, and else the serialised reply |
| `Requests.ErrorTexts` | sources/network/Pool.cpp:116-136 | the 400, 404 and 500 replies that the server makes itself, byte for byte |
| `Requests.RequestIsWhole` | sources/network/Client.cpp:89-138 | the bytes of such a request are one whole message when its own headers announce the length of its body |
| `Requests.UnderstoodLonger` | sources/network/Pool.cpp:115-143 | bytes behind a complete head change what is understood in the body only |
| `Connections.Client.ReadRequest` | sources/network/Client.cpp:43-57 | received bytes are appended; on close or failure the buffer stays |
| `Connections.Client.IsRequestReady` | sources/network/Client.cpp:89-138 | the imperative test with its scanning loop is the readiness predicate |
| `Connections.Client.PrepareResponse` | sources/network/Client.cpp:80-87 | the response is serialised into the buffer, replacing what was there; when serialising throws the buffer stays |
| `Connections.Client.WriteResponse` | sources/network/Client.cpp:59-78 | a send that takes anything empties the buffer, any other leaves it, and the count is what send returned, or 0 with nothing to send |
| `Connections.Pool.AddClient` | sources/network/Pool.cpp:31-40 | a fresh client is in the map and the poller, the others stay |
| `Connections.Pool.RemoveClient` | sources/network/Pool.cpp:52-53 | the descriptor leaves the poller and the map, the others stay |
| `Connections.Pool.HandleClientEvent` | sources/network/Pool.cpp:42-107 | an event for an unknown descriptor changes nothing; after an error, a closed or empty read, or a ready request, the descriptor is in neither map nor poller, and otherwise it stays; the client becomes what the connection's transition says |
| `Connections.Pool.HandleReadable` | sources/network/Pool.cpp:58-103 | reading, testing, processing and sending in one event; the connection goes on exactly when bytes came and the buffer is not ready |
| `Connections.Pool.ProcessAndSend` | sources/network/Pool.cpp:76-83 | a ready request is processed, then its reply is sent |
| `Connections.Pool.ProcessRequest` | sources/network/Pool.cpp:109-208 | the prepared reply is a function of the received bytes alone; whatever throws, serialising included, is answered by a server error |
| `Connections.Pool.SplitRequest` | sources/network/Pool.cpp:115-140 | the cut points, with both bad-request branches |
| `Connections.Pool.MakeReply` | sources/network/Pool.cpp:115-197 | a bad request without cut points, else parse, route and run; a throw gives no reply |
| `Connections.Pool.Dispatch` | sources/network/Pool.cpp:145-197 | routing, parameters, middleware in order, handler, and the Connection header |
| `Connections.ReadyIsNeverBadRequest` | sources/network/Pool.cpp:115-136 | neither bad-request branch is reachable with a ready buffer |
| `Connections.Lifecycle` | sources/network/Pool.cpp:42-107 | over every sequence of events a connection is processed at most once, only when ready, and sent at most one run of bytes, which begins the reply |
| `Connections.LiveIff` | sources/network/Pool.cpp:42-107 | for every sequence of events a connection is still there if and only if no event failed, no read came back empty, and no prefix of the bytes received was ready |
| `Connections.EndedAt` | sources/network/Pool.cpp:48-98 | what the first event that ends a connection leaves: the bytes so far on an error or at the end of the stream, and for a ready request exactly one processing and at most one send, with what each result of send leaves in the buffer |
| `Connections.NotEnded` | sources/network/Pool.cpp:72-102 | until then it holds the bytes received and has done nothing else |
| `Connections.WholeMessageServedOnce` | sources/network/Pool.cpp:58-103 | for every cut of a whole message into reads, the connection collects until the last, is then processed once with exactly that message, and is dropped |
| `Connections.StreamServedOnce` | sources/network/Pool.cpp:58-103 | a stream that goes on behind a message with a Content-Length is served once, for every cut into reads, with that message and what had arrived behind it in its body |
| `Connections.StreamServedIff` | sources/network/Pool.cpp:58-103 | every such stream is served with its first message if and only if that message has a Content-Length |
| `Connections.UnannouncedCanWait` | sources/network/Pool.cpp:72-102 | without one, one read of the message and more leaves the connection waiting |
| `Connections.RequestServed` | sources/network/Pool.cpp:42-208 | end to end: a transmissible request that is one whole message is answered once, for every cut into reads, and what is sent begins the reply to the request itself |
| `Connections.AnnouncedRequestServed` | sources/network/Pool.cpp:42-208 | the same for every transmissible request whose own headers announce the length of its body |
| `ThreadPools.ThreadPool.constructor` | sources/network/ThreadPool.cpp:4-8 | the loop starts that many workers on an empty queue |
| `ThreadPools.ThreadPool.Enqueue` | headers/network/ThreadPool.hpp:64-74 | after stop nothing is accepted; before, the task goes to the end of the queue and a notification is due |
| `ThreadPools.ThreadPool.NotifyOne` | headers/network/ThreadPool.hpp:75 | one sleeping worker, if any, wakes |
| `ThreadPools.ThreadPool.LockAndTest` | sources/network/ThreadPool.cpp:27-38 | a worker goes to sleep, leaves, or takes the first task |
| `ThreadPools.ThreadPool.Finish` | sources/network/ThreadPool.cpp:40-41 | a running worker is done with its task |
| `ThreadPools.ThreadPool.SetStop` | sources/network/ThreadPool.cpp:11-14 | the flag is set and a notify_all is due |
| `ThreadPools.ThreadPool.NotifyAll` | sources/network/ThreadPool.cpp:15 | every sleeping worker wakes |
| `ThreadPools.ThreadPool.Join` | sources/network/ThreadPool.cpp:17-20 | the destructor returns once all workers have left |
| `ThreadPools.StepKeepsInv` | sources/network/ThreadPool.cpp:4-43 | every step of every interleaving, spurious wakeups included, keeps the invariant |
| `ThreadPools.ReachableInv` | sources/network/ThreadPool.cpp:4-43 | so every reachable state satisfies it |
| `ThreadPools.QueuedTaskIsSeen` | headers/network/ThreadPool.hpp:64-76 | no lost wakeup: queued tasks never face only sleeping workers without a notification on its way |
| `ThreadPools.TasksConserved` | sources/network/ThreadPool.cpp:23-43 | accepted tasks are exactly the started ones followed by the queue, and each is queued, running or finished, none lost and none twice |
| `ThreadPools.AcceptedIsOffered` | headers/network/ThreadPool.hpp:64-76 | the accepted tasks are exactly those enqueued before stop, in order, however many are queued already |
| `ThreadPools.OfferedHaveRun` | sources/network/ThreadPool.cpp:10-43 | when the destructor has returned exactly the tasks enqueued before stop have run, once each, started in that order |
| `ThreadPools.DrainedWhenJoined` | sources/network/ThreadPool.cpp:10-21 | when the destructor has returned every accepted task has run exactly once, if and only if there was a worker or nothing was accepted |
| `ThreadPools.TaskLostWithoutWorkers` | sources/network/ThreadPool.cpp:4-21 | a pool without threads reaches, for any task, a state where the destructor has returned and that accepted task never ran |
| `ThreadPools.ShutdownStep` | sources/network/ThreadPool.cpp:10-43 | after stop nothing is accepted, nobody goes to sleep, and every other step leaves less to do |
| `ThreadPools.ShutdownTerminates` | sources/network/ThreadPool.cpp:10-43 | after stop a run makes at most a bounded number of steps, and where none is left the destructor has returned |
| `ThreadPools.OpenPoolDrains` | sources/network/ThreadPool.cpp:23-43 | while open, the pool's own steps use up a finite backlog, and where none is left every accepted task has finished |
| `ThreadPools.OpenRunBounded` | sources/network/ThreadPool.cpp:23-43 | over any run of an open pool its own steps and the backlog left are at most the backlog at the start, four per enqueue and one per spurious wakeup |
| `ThreadPools.OpenRunDrains` | sources/network/ThreadPool.cpp:23-43 | so its own steps are bounded, and where none is left every accepted task has finished |
| `PoolManagers.PoolManager.AddPool` | sources/network/PoolManager.cpp:10-15 | the pool is appended and the index stays valid |
| `PoolManagers.PoolManager.GetPool` | sources/network/PoolManager.cpp:17-31 | the pool at the index is chosen and the index moves on, wrapping; without pools there is none |
| `PoolManagers.CountExact` | sources/network/PoolManager.cpp:23-25 | how often a pool is chosen in k selections, exactly, from any index |
| `PoolManagers.RoundRobinFair` | sources/network/PoolManager.cpp:23-25 | any k selections in a row give each of n pools floor(k/n) or ceil(k/n) clients |
| `PoolManagers.RoundIsPermutation` | sources/network/PoolManager.cpp:23-25 | any n selections in a row choose every pool exactly once |
| `Ownership.StepKeepsInv` | sources/network/Server.cpp:56-73 | every step of accept thread, pool threads and shutdown keeps the ownership invariant, an accept that completes after stop included |
| `Ownership.OneLateAccept` | sources/network/Server.cpp:56-58 | once the flag is down at most one more client is accepted, the one already waited for, and then none |
| `Ownership.ReachableInv` | sources/network/Server.cpp:37-73 | so every reachable state satisfies it |
| `Ownership.OneOwner` | sources/network/PoolManager.cpp:33-42 | a socket is open exactly when it has an owner, has only one, and a pool polls only sockets it owns, in their present generation |
| `Ownership.InsertOverwritesNothing` | sources/network/ConnectionPool.cpp:6-11 | storing a client never destroys another and closes nothing |
| `Ownership.NoStaleEvent` | sources/network/EventLoop.cpp:15-27 | an event is dispatched to the very client generation it was polled for, and `getClient` never answers null |
| `Ownership.NoDanglingClient` | sources/network/Pool.cpp:42-103 | while a pool's thread uses a client, that client is in the map and its socket open in the same generation |
| `Ownership.ClosedByOwnerOnce` | sources/network/Client.cpp:15-21 | no generation is closed twice, and every close is of the present generation, by its owner |
| `Ownership.NothingLeaks` | sources/network/Server.cpp:37-54 | after shutdown, with the client maps empty, exactly the accepted sockets have been closed, each once |
| `Service.ServiceIsPossible` | sources/network/Server.cpp:56-73 | from every reachable state that runs and is about to accept, any free descriptor can be accepted, and is then a client of exactly the pool whose turn it is, registered there; from there it can be polled and looked up, and closed and forgotten |
| `Service.ShutdownIsPossible` | sources/network/Server.cpp:37-54 | from every reachable state the server can be brought down, with every socket it ever accepted closed once |
| `Service.DoneOnlyWhenDown` | sources/network/Server.cpp:57 | the accept thread is over only when the flag is down |
| `Service.SelectsRoundRobin` | sources/network/PoolManager.cpp:17-31 | in every interleaving the pools chosen for successive clients are the round-robin ones |
| `Service.ClientsSpread` | sources/network/PoolManager.cpp:33-42 | so over any run each of n pools is chosen for floor(k/n) or ceil(k/n) of k clients |
| `Service.EventsConserved` | sources/network/EventLoop.cpp:15-27 | every polled event is taken up exactly once, in order, or still waits in its batch |
| `Serving.StepKeepsInv` | sources/network/Pool.cpp:42-103 | every step of the owners, and every handled event whatever recv and send do, keeps client objects and sockets in agreement |
| `Serving.RepliesGoHome` | sources/network/Pool.cpp:42-103 | in every reachable state, despite descriptor reuse: over one use of a descriptor at most one run of bytes is sent, only when what was received over that same use is ready, and it begins the reply to exactly those bytes |
| `Answering.AnswerIsPossible` | sources/network/Pool.cpp:42-103 | from every reachable state that runs and is about to accept, for every free descriptor and ready request there is a run that receives it over that use of the descriptor, sends the beginning of its reply over it, and closes it |

## Left out

- System calls and their wrappers (`recv`, `send`, `accept`, `bind`, epoll, kqueue): only their visible results, as parameters or free choices.
- The failing `addFD` or `removeFD` path, where the accept loop closes a descriptor that a pool still holds: ownership is stated for poller calls that succeed, an accept that returns only descriptors that are not open, and polled batches of pairwise distinct descriptors.
- Liveness of reading and complete delivery: an edge-triggered event reads at most 4096 bytes once, and one send is taken for a full send. Only safety and prefix properties are stated.
- The 4096-byte bound on one read: a read brings any number of bytes, which includes every bounded one.
- Server and event-loop restart, and the race between stopping an event loop and its start.
- `std::regex`: one total function from pattern and path to a match with its groups, no match, or a bad pattern.
- Handler and middleware bodies: total functions that return a value or throw; what is thrown is a `std::exception`. A pointer they leave null is not modelled.
- Tasks of the thread pool that throw, and `enqueue` calls after the destructor has returned.
- Handling one event: its recv, processing and send are one step of `Serving`; other threads act between lookup, handling and removal, and reach neither the client nor the poller entry.
- `Service` and `Answering` say that runs exist, not that a scheduler takes them.
- Memory orders: a critical section of one mutex is one step, and atomics are sequentially consistent.
- Buffers longer than `std::string::max_size`: results that subtract lengths assume none, and those about bytes still to come leave room for 16 of them.
- Routing.GroupLookup: says nothing of regular-expression routes in a group, whose prefixed pattern is another expression, because expressions are opaque here.
- Message.StatusText: the phrases themselves are those of the source's table and are stated by nothing else, except those of the server's own replies.
- `matchPattern` collects the parameter keys in a second output that no caller reads.
- `Headers::get`, `has`, `remove`, `clear`, plain getters, the logger, move constructors and `Application` forwarding: they would add only easy members.
- Conformance to RFC 9110, RFC 9112 and RFC 3986 beyond what the code does: Content-Length is matched by case and anywhere in the text, there is no percent-decoding and no chunked coding.
- `PoolManagers`: concurrent callers of `get_pool`; its mutex makes each call one step.
