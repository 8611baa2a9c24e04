# web_server in Dafny

A model of the request handling of a small forking HTTP/1.0 file server
written in C (`server.c`, `server.h`). For each connection the server:

1. reads one message with `recv` into a zeroed 99999-byte buffer;
2. splits its first bytes into a request method, a URL path and a protocol
   with three `strtok` calls;
3. answers a line whose protocol token is missing or does not start with
   `HTTP/1.0` or `HTTP/1.1` with exactly the 25-byte line
   `HTTP/1.0 400 Bad Request\n`;
4. refuses anything but a `GET`, replaces any one-character URL by
   `/index.html`, and puts the server directory in front of the URL;
5. runs a path ending in `.php` as `php -f <path>` and streams its output,
   or opens any other path and streams its bytes, each after the 17-byte
   header `HTTP/1.0 200 OK\n\n`.

The parent process keeps a table of 1000 client descriptors. It stores each
accepted descriptor under a cycling index and then moves the index on to
the next free slot.

The project is organised as follows:

- `wrappers.dfy` holds `Option`.
- `libc.dfy` models the C library behaviour the server relies on:
  - NUL-terminated strings;
  - `strncmp`;
  - `strtok` as a pure scan that skips delimiters, takes a maximal run of
    other bytes and consumes one delimiter;
  - the bytes `write` sends from a string literal.
- `server_h.dfy` holds the constants of `server.h` and facts about their
  lengths.
- `errors.dfy` holds `check_error`.
- `request.dfy` holds the tokeniser and the two validators.
- `response.dfy` holds the pure decision (`Decide`, `FileOutcome`,
  `BytesSent`) and the methods that perform it as a sequence of writes
  (`RespondToClient`, `RespondWithFile`, and the two copy loops).
- `slots.dfy` holds the slot table. It is a class over an `array<int>` and
  its cursor, with a value-level specification (`AcceptStep`, `Serve`).

The environment is a parameter:

- `recv`'s result and the buffer contents. `RecvBuffer` builds the buffer that `recv` leaves: the received bytes, then the zeros of the `memset`;
- the server directory;
- a map from openable paths to their bytes;
- a function from shell commands to what `popen` prints;
- the sequence of `accept` results.

The bytes a request produces are a sequence of writes. `Flatten` of that
sequence is compared with `BytesSent` of the decision.

### Where the code and its description differ

The model follows the code in each of these cases:

- The `check_error` header in `server.h` says it returns
  `(err_status && exit_on_err)`. The code returns `err_status` unchanged
  when it does not exit, and exits in exactly the case where that
  conjunction is 1. See `Errors.ReturnIsNotTheDocumentedConjunction`.
- The root substitution tests `strlen(url_path) == 1`. Every
  one-character URL is served `/index.html`, not only `/`.
- The protocol check is an 8-byte prefix test. `HTTP/1.1\r` (from a CRLF
  line) and `HTTP/1.0abc` pass.
- The URL ends only at a space or tab. It may contain a line feed and run
  into the header lines.
- The script test also needs the URL to be longer than five bytes, so
  `/.php` is served as a plain file.
- The status lines end in a bare LF, not the CRLF of section 6.1 of
  RFC 1945.
- The parent never frees a slot, so after 1000 successful accepts its
  advance loop never ends.

## Model

| member | source | states |
|---|---|---|
| LibC.CStr | server.c:171-172 | the zeroed buffer read as a C string: NUL-free, a prefix of the buffer, ended by a NUL when shorter |
| LibC.CStrOfTerminated | server.c:171-172 | a NUL-free string followed by a NUL and further bytes reads back as that string |
| LibC.CStrOfNulFree | server.c:171-172 | a buffer without NUL is its own C string |
| LibC.StrnEqLiteralPrefix | server.c:81-84 | strncmp over a NUL-free literal's length is the test that the literal is a prefix of the C string |
| LibC.StrnEqLiteralExact | server.c:76-79 | strncmp over a literal and its NUL is the test that the C string equals the literal |
| LibC.StrnEq | server.c:76-84 | strncmp(a, b, n) == 0, as called in both validators and in the script test at line 210: the first n bytes agree, stopping early at a shared NUL; its meaning on literals is stated by StrnEqLiteralPrefix and StrnEqLiteralExact |
| LibC.StrnEqSymmetric | server.c:210 | strncmp(a, b, n) == 0 is symmetric in a and b |
| LibC.LiteralBytes | server.c:185 | write of n bytes from a literal sends n bytes, a prefix of the literal when n is at most its length |
| LibC.SpanEnd | server.c:179-181 | the end of a run of non-delimiters: no delimiter before it, a delimiter or the end at it |
| LibC.NextToken | server.c:179-181 | one strtok call: None exactly when only delimiters are left; a token is non-empty, delimiter-free and NUL-free on a C string, and the scan moves forward |
| LibC.NextTokenAt | server.c:179-181 | on delimiters, then a run of non-delimiters, then a delimiter or the end, strtok returns that run and resumes past the one delimiter |
| LibC.NextTokenSpan | server.c:179-181 | every token strtok returns sits after a run of delimiters and before a delimiter or the end, and the call resumes past that one delimiter |
| LibC.NextTokenAtEnd | server.c:180-181 | strtok at the end of the string returns NULL |
| ServerH.BadRequestLineSentWhole | server.h:34 | HTTP_400_RES is 25 bytes, so the 25-byte write sends all of it and no NUL, ending in LF |
| ServerH.OkHeaderSentWhole | server.h:35 | HTTP_200_RES is 17 bytes, the status line and an empty line, both ended by LF |
| ServerH.CompareLiteralsFitLengths | server.h:36-40 | "GET\0" puts its NUL within the 4 compared bytes; HTTP_1_0 and HTTP_1_1 are exactly the 8 compared bytes |
| Errors.CheckError | server.c:48-58 | with exit_on_err 0, err_status is returned unchanged and reported when nonzero; with both nonzero the process exits |
| Errors.ReturnIsNotTheDocumentedConjunction | server.h:60-71 | whenever check_error returns, the value is err_status and the conjunction is 0; with err_status nonzero they differ |
| Errors.IntendedErrorReturnsOne | server.c:146 | check_error(INTENDED_ERROR, !EXIT_ON_ERROR) reports and returns 1 |
| Request.Tokenise | server.c:179-181 | the three strtok calls: each token is non-empty and free of its own delimiters; the URL is found only after a method, the protocol only after a URL |
| Request.ValidReqMethod | server.c:76-79 | a 4-byte strncmp against "GET\0"; its meaning is stated by ValidReqMethodIsExact |
| Request.ValidHttpProtocol | server.c:81-84 | an 8-byte strncmp against HTTP/1.0 or HTTP/1.1, false for a missing token; its meaning is stated by ValidHttpProtocolIsPrefix |
| Request.ValidReqMethodIsExact | server.c:76-79 | valid_req_method holds iff the C string is exactly "GET" |
| Request.ValidHttpProtocolIsPrefix | server.c:81-84 | valid_http_protocol holds iff the C string starts with HTTP/1.0 or HTTP/1.1 |
| Request.OnlyExactGetAccepted | server.c:76-79 | "GET" passes; "GETX", "get", "GE", "POST" and "" fail |
| Request.ProtocolCarriageReturnAccepted | server.c:81-84 | "HTTP/1.1\r" passes |
| Request.ProtocolTrailingBytesAccepted | server.c:81-84 | "HTTP/1.0abc" passes |
| Request.ProtocolMismatchRejected | server.c:81-84 | "HTTP/1.2" and "http/1.0" fail |
| Request.ProtocolMissingRejected | server.c:81-84 | "HTTP/1." and a missing token fail |
| Request.TokeniseLaidOut | server.c:179-181 | a line laid out as delimiters, method, delimiter, blanks, URL, blank, delimiters, protocol yields exactly those three tokens |
| Request.LayoutOfTokens | server.c:179-181 | a line with a protocol token has the three-token layout |
| Request.TokeniseHasLayout | server.c:179-182 | the protocol token is found iff the line has the three-token layout, so a line with fewer tokens, or whose method or URL runs to the end, has none |
| Request.CrlfLineKeepsCarriageReturn | server.c:179-181 | "GET / HTTP/1.1\r\n" tokenises to GET, / and "HTTP/1.1\r" |
| Request.UrlRunsPastLineEnd | server.c:180 | in "GET /a\nHost: x HTTP/1.0" the URL is "/a\nHost:" and the protocol "x" |
| Request.TwoTokensHaveNoProtocol | server.c:181-182 | "GET /\n" has no protocol token and is invalid |
| Response.ResolvedUrl | server.c:203 | a one-character URL becomes /index.html and any other is kept; the result never has one character |
| Response.IsScript | server.c:210 | the URL is longer than five bytes and a 4-byte strncmp of ".php" against its last four bytes succeeds; its meaning is stated by IsScriptIsSuffixTest |
| Response.IsScriptIsSuffixTest | server.c:210 | on a C string, the script test is: more than five bytes and ending in ".php" |
| Response.ScriptNeedsSixBytes | server.c:210 | "/.php" is not a script, "/a.php" is, "/index.html" is not |
| Response.FileOutcome | server.c:191-228 | method refused iff not GET; script iff GET and the resolved URL is a script, running "php -f " + dir + URL; otherwise the file at dir + URL is sent if it opens, else the open fails |
| Response.Decide | server.c:163-189 | recv < 0 and recv == 0 are their own outcomes; the 400 answer iff a message arrived without a valid protocol; with a valid protocol, the outcome is FileOutcome of the method and URL tokens |
| Response.BytesSent | server.c:183-185 | the 400 outcome sends exactly HTTP_400_RES; file and script send HTTP_200_RES then the body; the other four send nothing |
| Response.AnswerShapes | server.c:185 | every answer is empty, exactly the 400 line, or starts with the 200 header |
| Response.OnlyBadRequestSends400 | server.c:182-186 | an answer equals the 400 line iff the outcome is the bad request |
| Response.NoAnswerWithoutMessage | server.c:172-176 | recv <= 0 sends nothing, whatever the buffer, directory or files |
| Response.BadRequestExactlyOnInvalidProtocol | server.c:182-186 | the 400 line is sent iff a message arrived and its protocol is missing or invalid, and then independently of directory and files |
| Response.NonGetSendsNothing | server.c:198-199 | a method other than GET sends nothing and does not depend on directory or files |
| Response.UnopenableFileSendsNothing | server.c:222-223 | a GET for a non-script path that does not open sends nothing |
| Response.OneCharacterUrlServesIndex | server.c:203-205 | a one-character URL serves dir + "/index.html" with the 200 header, or fails to open it |
| Response.ScriptRunsWithoutOpening | server.c:210-219 | a script sends the 200 header and the output of "php -f " + dir + URL, whatever files exist |
| Response.UrlIsNotSanitised | server.c:204-205 | "/../secret" is served from dir + "/../secret" |
| Response.RecvBuffer | server.c:171-172 | the 99999-byte buffer after recv: the received bytes, then NULs; NUL-free received bytes are its C string |
| Response.LaidOutLineDecided | server.c:172-189 | a message whose C string is laid out as method, URL and valid protocol is decided by FileOutcome of exactly those method and URL bytes |
| Response.GetOfStaticFile | server.c:198-227 | a GET for an existing non-script path sends the 200 header and the file's bytes |
| Response.StaticFileAnswered | server.c:172-227 | a message whose C string is laid out as GET, a URL and a valid protocol gets the 200 header and the bytes of dir + URL |
| Response.ReceivedRequestAnswered | server.c:171-227 | a NUL-free request line shorter than the buffer, received into the zeroed buffer, gets the 200 header and the bytes of dir + URL |
| Response.StreamFile | server.c:225-226 | the writes of the read loop carry the file's bytes in order, each chunk 1 to 1024 bytes |
| Response.LineLength | server.c:215 | fgets stops after a newline, at the end, or after 1023 bytes, and takes at least one byte when it can |
| Response.FgetsLine | server.c:215 | one fgets: a prefix of the rest of 1 to 1023 bytes with no newline but the last, and either all the rest or ended by a newline or full |
| Response.StreamScript | server.c:215-216 | the writes of the fgets loop carry the output in order; every chunk is a line of at most 1023 bytes, and all but the last end a line or fill the buffer |
| Response.RespondWithFile | server.c:191-228 | the writes carry BytesSent of the decision, starting with the 200 header; it returns 1 iff it wrote nothing, SUCCESS iff it sent a file or script |
| Response.RespondToClient | server.c:163-189 | returns SUCCESS and writes BytesSent of the decision |
| Slots.Fresh | server.c:93-94 | after initialisation every slot is free and the cursor is at 0 |
| Slots.SlotAfter | server.c:158 | the explicit wrap of the cursor equals (i + d) % MAX_CLIENT_CONNECTIONS |
| Slots.AdvanceFrom | server.c:157-158 | the advance loop finds the first free slot going round from the cursor: the slot it gives is free and every slot passed over before it is taken |
| Slots.AdvanceFromNone | server.c:157-158 | the search fails iff none of the slots it visits is free |
| Slots.FullTurnFindsAnyFreeSlot | server.c:157-158 | a full turn finds a free slot iff the table has one |
| Slots.AcceptStep | server.c:144-158 | an accept writes the slot under the cursor and no other; -1 returns status 1; otherwise the cursor is on a free slot, or the loop spins iff no slot is free |
| Slots.Serve | server.c:140-159 | the loop over accept results keeps the table well formed |
| Slots.AcceptIntoFilledPrefix | server.c:144-158 | on a table filled from slot 0 up to the cursor, an accept fills the next slot and moves the cursor on, or spins on the last one |
| Slots.ServeFillsInOrder | server.c:140-159 | successful accepts fill slots in order, and spin once the table is full |
| Slots.SpinsAfterThousandAccepts | server.c:93-94 | after initialisation, fewer than 1000 successful accepts fill slots 0 onwards, and 1000 leave the loop spinning |
| Slots.ClientSlots.State | server.c:6 | the class's array and cursor form a well-formed table |
| Slots.ClientSlots.constructor | server.c:6 | the global array starts zeroed and the cursor at 0 |
| Slots.ClientSlots.InitializeServer | server.c:86-96 | every slot is set to -1 and SUCCESS is returned |
| Slots.ClientSlots.Accept | server.c:144-158 | the new array and cursor and the step are those of AcceptStep on the old ones |
| Slots.ClientSlots.AdvanceCursor | server.c:157-158 | the cursor moves to the slot AdvanceFrom finds, or stays put when there is none |
| Slots.ClientSlots.HandleConnections | server.c:133-161 | starting the cursor at 0, the final array, cursor and step are those of Serve |

## Left out

- `main` is not modelled: argument parsing with `getopt`, the `getenv` default directory and the port copy. The server directory is a parameter.
- `host_address_info` and `start_host_listening` are not modelled: they only call `getaddrinfo`, `socket`, `bind` and `listen`.
- `fork`, `accept`, `shutdown` and `close` are not modelled. Each accept result is an input. The child's handling of a connection is `RespondToClient`, and the child's clearing of its own copy of a slot does not reach the parent.
- Logging is not modelled: `printf`, `perror` and `fprintf` are dropped. The process exit in `check_error` is modelled, as the `Exited` outcome.
- `strtok` writing NULs into the buffer in place is not modelled. Tokens are taken as slices of the C string.
- A `recv` that fills all 99999 bytes (`|data| == MAX_CLIENT_MSG_LENGTH` in `RecvBuffer`) leaves no terminating NUL, and `strtok` then reads past the buffer. The model reads the buffer as if it ended there.
- `php_cmd` is sized at `strlen(url_path) + 7` bytes (server.c:194), but receives `php -f `, the server directory, the URL and a NUL (server.c:211-212). Every script request therefore overflows it by the directory's length plus one byte, even with an empty directory. The model builds the whole command instead. The `path` buffer overflow for long paths is not modelled either.
- A NULL method or URL never reaches `respond_with_file`, since a protocol token implies both. A NULL protocol is treated as invalid, where the C passes it to `strncmp`.
- A failed `popen` (NULL stream) is not modelled.
- Response.StreamFile: `read` is taken to return the full 1024 bytes or what is left of the file. Short reads and read errors are not modelled.
- Response.StreamScript: each chunk is written whole. The C writes `strlen` of it, which drops everything after an embedded NUL in the script's output.
- Slots.ClientSlots.AdvanceCursor: the advance loop is cut off after one full turn, returning `Spinning`. In the C it never ends.
