# libstx, modelled and proved

A Dafny model of the codecs, incremental parsers, allocator and concurrent protocols of
libstx, a C++ standard-library extension, with proofs about them. `dafny verify
dfyconfig.toml` checks the whole project.

Each `char` of a `string` stands for one byte, `Err` or `None` for an exception, and an
object that the program updates in place is a class whose methods are proved against a
function on its state. The parts, and the main result of each:

- **HTTP/1.x** (`HttpParser`, `HttpSplits`, `HttpRequest`, `HttpResponse`, `HttpRefusals`,
  `Format`). The batched parser
  refines a byte-at-a-time automaton. Chunk boundaries are invisible if and only if
  completed tokens keep their size limits and the body its announced length; for every
  other input there is a cut that changes the outcome. Parsing a generated request
  returns it, in one piece or in any number of them. The plain text of any response gives
  its version, code, name and headers, and the body size that they announce.
- **JSON** (`JsonTypes`, `JsonPrinter`, `JsonGrammar`, `JsonLexer`, `JsonRoundTrip`,
  `JsonIndex`, `JsonLookup`, `JsonMeaning`). The stack-machine printer prints the grammar of
  RFC 8259, and by that grammar its text says the value, every string unescaped.
  Tokenizing its text and filling in the sizes gives the flattened tree back, exactly
  when its strings survive and numbers are not quoted. Lookups by jumps on the
  vector equal lookups on the tree.
- **Schemas** (`SchemaTypes`, `SchemaJson`, `SchemaColumns`, `SchemaText`, `SchemaCodec`). A schema of any
  depth survives its JSON text up to hints, object sizes and a few control bytes, and its
  binary form entirely. The three field indexes agree with the field list over all
  histories; a removal breaks the agreement exactly when ids or names are shared.
- **Messages** (`Wire`, `WireFormat`, `Messages`, `MessageRoundTrip`). Decoding with any schema that
  lacks some fields, at any level, gives the projection of the message; with the encoder's
  schema it gives the message if and only if values have their fields' kinds and ids fit
  29 bits.
- **SHA-1** (`Sha1`, `Sha1Examples`). In-place schedule, OR forms and padding on the fly
  compute the hash of FIPS 180-4 for every message below 2^29 bytes, and what they compute
  above. The specification is evaluated at the published examples, round by round.
- **Response stream** (`ResponseStream`). Over all interleavings of calls, partial socket
  writes, completions and errors, bytes are conserved in order with one write at a time.
- **Server-sent events** (`Sse`, `SseLines`). Every split of every input gives the same events, and
  sent events come back exactly when they have data and keep to one line.
- **Thread pool** (`ThreadPool`). Tasks are taken once and in order in every interleaving.
  Where thread starts succeed, the whole queue can be taken from every reachable state; in
  general, exactly when a cached worker can come back or enough others are left.
- **Pages** (`Pages`). Live and free pages tile the allocated space over all histories,
  and every page handed out stays within the file and its mapping.
- **Smaller codecs** (`UrlCoding`, `Uri`, `Base64`, `CivilTime`, `ColumnType`). Text that
  anyone form-encoded decodes to its bytes, Base64 is RFC 4648, and each millisecond of the
  calendar is a thousand microseconds after the one before it.

Shared helpers are in `Text`.

Where the code and the expectation of it differ, the model follows the code:

- The HTTP parser compares a token's size with its limit only when a call ends inside the
  token, and counts body bytes only for equality with the expected size, so an overlong
  token or body is rejected or not depending on the cut (`HttpSplits.TellingCut`,
  `HttpRequest.OverrunExample`).
- A content length of 2^64 - 1 means that the body ends with the connection, since that is
  the sentinel for it (`HttpResponse.RequestCutShort`), and the end of the input is accepted
  within a head that has announced no body (`HttpRefusals.LineAlone`).
- The JSON tokenizer drops `\u` and the four digits behind it (`JsonMeaning.LiteralReadIff`).
- `toJSON` prints sizes from 2^63 on as negative numbers; `fromJSON` reads them back
  unchanged, because `stoul` negates modulo 2^64 (`SchemaJson.SchemaThroughText`).
- `removeField` erases index entries that another field with the same id or name still
  needs (`SchemaCodec.SharedName`; exactly when, `SchemaCodec.RemoveAgreesIff`).
- A number, double or boolean field whose value has the wrong type leaves its key in the
  writer (`Messages.EncodeObject`).
- An empty chunk written after the end of a response finishes the connection again
  (`ResponseStream.LateChunk`).
- A thread that cannot be created may leave its task without a worker
  (`ThreadPool.Stranded`; exactly when, `ThreadPool.CreationFails`).
- The microseconds of a time before 1970 in UTC wrap around, so that they are larger than
  those of a later time (`CivilTime.OrderLost`; exactly when, `CivilTime.OrderKept`).

## Model

| member | source | states |
|---|---|---|
| `Format.ReplaceAll` | src/stx/stringutil.cc:113-126 | the in-place loop leaves every occurrence of the pattern, left to right, replaced, also when the replacement contains the pattern |
| `Format.FormatString` | src/stx/stringutil_impl.h:33-70 | `format` is one `replaceAll` per argument on the same scratch string, in order |
| `Format.FormatTwo` | src/stx/stringutil_impl.h:33-70 | sequential substitution of two placeholders is plain concatenation when the first argument does not hold the second placeholder |
| `Format.FormatThree` | src/stx/stringutil_impl.h:33-70 | the same for three placeholders |
| `HttpParser.StripTrailingBytes` | src/stx/bufferutil.cc:15-24 | the backward cursor loop removes exactly the trailing run of the byte |
| `HttpParser.SplitHeader` | src/stx/http/httpparser.cc:322-341 | a header line is cut at its first colon, blanks after it skipped, no colon is an error |
| `HttpParser.HTTPParser.ReadUntil` | src/stx/http/httpparser.cc:413-419 | the bytes before the next delimiter, and only those, join the token buffer |
| `HttpParser.HTTPParser.ProcessHeaderLine` | src/stx/http/httpparser.cc:364-392 | a content-length or connection header sets the expected body size, others leave it; a bad length is an error without a callback |
| `HttpParser.HTTPParser.FinishToken` | src/stx/http/httpparser.cc:157-361 | what each of the seven token states does with a complete token: the callback, the next state, the error |
| `HttpParser.HTTPParser.ParseToken` | src/stx/http/httpparser.cc:157-361 | one batched token read takes the byte-at-a-time automaton to the same outcome on the rest of the input |
| `HttpParser.HTTPParser.ReadBody` | src/stx/http/httpparser.cc:394-411 | the rest of the input becomes body, and the state is done exactly when the counter meets the expected size |
| `HttpParser.HTTPParser.Parse` | src/stx/http/httpparser.cc:95-133 | one call of the batched parser equals the byte-at-a-time automaton: events, body, state, or failure |
| `HttpParser.HTTPParser.ParseEof` | src/stx/http/httpparser.cc:135-155 | the end of the stream finishes a message or rejects a short body |
| `HttpParser.HTTPParser.Reset` | src/stx/http/httpparser.cc:421-436 | the parser is fresh again, callbacks already made stay |
| `HttpParser.HTTPParser.IgnoreBody` | src/stx/http/httpparser.cc:438-440 | the flag by which headers announce a body is cleared, and nothing else changes |
| `HttpParser.CallStretch` | src/stx/http/httpparser.cc:413-419 | a stretch without the delimiter only fills the token buffer |
| `HttpSplits.CutOnce` | src/stx/http/httpparser.cc:95-133 | one cut of an input in which tokens keep their limits and the body its length changes nothing, and the rest is such an input again |
| `HttpSplits.CleanRun` | src/stx/http/httpparser.cc:95-133 | any number of cuts of such an input gives the outcome of a single call |
| `HttpSplits.TellingCut` | src/stx/http/httpparser.cc:95-133 | every other input has a cut whose outcome differs, and where it is |
| `HttpSplits.SplitsDoNotMatterIff` | src/stx/http/httpparser.cc:95-419 | chunk boundaries are invisible for an input if and only if every token it completes is within its size limit and the body does not pass its announced length |
| `HttpSplits.AnyTwoCutsAgree` | src/stx/http/httpparser.cc:95-155 | two ways of cutting such an input agree in events, body, state and failure, also at the end of the stream |
| `HttpRequest.FindHeader` | src/stx/http/httpmessage.cc:50-61 | a header is present iff some stored name equals the lower-cased one |
| `HttpRequest.WriteHeaders` | src/stx/http/httpgenerator.cc:19-41 | the header loop writes one formatted line per header, in order |
| `HttpRequest.Generate` | src/stx/http/httpgenerator.cc:19-41 | the request line, headers, a length header if a body has none, a blank line and the body |
| `HttpRequest.GeneratedLayout` | src/stx/http/httpgenerator.cc:19-41 | for sendable requests the three format strings come to plain concatenation of the fields |
| `HttpRequest.HeadBack` | src/stx/http/httpparser.cc:157-392 | the generated head takes the parser to the body with exactly the request's fields as events, whatever follows |
| `HttpRequest.EventsToRequest` | src/stx/http/httprequest.cc:66-102 | the callbacks of `HTTPRequest::parse`, applied to those events, rebuild the request |
| `HttpRequest.RequestRoundTrip` | src/stx/http/httprequest.cc:66-102 | parsing a generated request returns it, plus the content-length header when the body needed one |
| `HttpRequest.RequestInPieces` | src/stx/http/httpparser.cc:95-133 | a generated request can be cut anywhere iff its tokens keep the limits, and then every cut returns the request |
| `HttpRequest.TrailingBytes` | src/stx/http/httpparser.cc:95-133 | with bytes after the announced body, cuts are invisible iff there is no body and the tokens keep the limits |
| `HttpRequest.OverrunExample` | src/stx/http/httpparser.cc:394-411 | a concrete input whose outcome depends on the cut: one body byte announced, two sent |
| `HttpResponse.Http10Compared` | src/stx/http/httpparser.cc:256-275 | the length-bounded comparison takes any beginning of "HTTP/1.0", in any case, for HTTP/1.0, and so does text that has a NUL behind it |
| `HttpResponse.ResponseHeadBack` | src/stx/http/httpparser.cc:256-392 | the plain text of a response takes a fresh parser to its body with exactly its version, code, name and headers as events, and the expected size they announce |
| `HttpResponse.ResponseParsed` | src/stx/http/httpresponse.cc:21-50 | a whole response is refused iff its body is shorter than announced, and otherwise ends with the text behind its head as body |
| `HttpResponse.NothingAnnounced` | src/stx/http/httpparser.cc:364-392 | without a length and a closing connection the expected size stays as the version made it |
| `HttpResponse.LastAnnounced` | src/stx/http/httpparser.cc:364-392 | of several headers that speak of the body the last one counts |
| `HttpResponse.RequestCutShort` | src/stx/http/httpparser.cc:135-155 | a request that ends before its body does is refused, unless its size is the one that stands for none |
| `HttpRefusals.Unfinished` | src/stx/http/httpparser.cc:157-362 | a token that a call leaves unfinished is kept up to 16, 8192 or 65535 bytes, and refused above |
| `HttpRefusals.MethodTaken` | src/stx/http/httpparser.cc:157-218 | a request begins with one of eight words in upper case, or is refused |
| `HttpRefusals.HeaderLine` | src/stx/http/httpparser.cc:322-392 | a header with any blanks after its colon and any carriage returns at its end, and what it does to the expected size, also where no body is expected |
| `HttpRefusals.OtherLine` | src/stx/http/httpparser.cc:322-362 | a line without a colon is refused, a line of carriage returns only ends the head |
| `HttpRefusals.CodeRefused` | src/stx/http/httpparser.cc:277-301 | a status code that is no 32-bit number is refused |
| `HttpRefusals.NothingBehind` | src/stx/http/httpparser.cc:118-123 | bytes behind a request without a body are refused |
| `HttpRefusals.LineAlone` | src/stx/http/httprequest.cc:66-104 | a request that ends after its request line is accepted, and so is an empty one |
| `JsonPrinter.EscapeString` | src/stx/json/jsonoutputstream.cc:249-362 | the loop escapes byte by byte: five short escapes, quote and backslash, `\u00xx` for other control bytes |
| `JsonPrinter.JSONOutputStream.EmplaceBack` | src/stx/json/jsonoutputstream.cc:40-144 | one token on the stack machine: separator by the top counter, text, push, pop or count |
| `JsonPrinter.JSONOutputStream.WriteTokens` | src/stx/json/jsonoutputstream.cc:26-30 | a whole token vector is written one token after the other |
| `JsonPrinter.JSONOutputStream.WriteValue` | src/stx/json/jsonoutputstream.cc:26-30 | the tokens of a value tree come out as the grammar prints the tree |
| `JsonPrinter.PrintsValue` | src/stx/json/jsonoutputstream.cc:40-144 | in any machine state the tokens of a value print its separator and the grammar's text, and count as one item |
| `JsonPrinter.PrintsItems` | src/stx/json/jsonoutputstream.cc:40-144 | the items of an array come out separated by commas |
| `JsonPrinter.PrintsMembers` | src/stx/json/jsonoutputstream.cc:40-144 | keys and values alternate with colons and commas |
| `JsonGrammar.EscapeValid` | src/stx/json/jsonoutputstream.cc:249-362 | an escaped string holds only characters and escapes that section 7 of RFC 8259 allows |
| `JsonGrammar.RenderValid` | src/stx/json/jsonoutputstream.cc:40-144 | every printed value is a JSON text in the grammar of RFC 8259 |
| `JsonGrammar.StreamValid` | src/stx/json/jsonoutputstream.cc:26-144 | the stack machine's output for the tokens of any value is a JSON text |
| `JsonLexer.JSONInputStream.AdvanceCursor` | src/stx/json/jsoninputstream.cc:227-231 | the one-byte lookahead moves one byte, or to the end mark |
| `JsonLexer.JSONInputStream.ReadEscape` | src/stx/json/jsoninputstream.cc:142-213 | the escape switch inside a string, `\u` and its digits dropped |
| `JsonLexer.JSONInputStream.ReadString` | src/stx/json/jsoninputstream.cc:142-213 | a string literal to its closing quote, or an error at the end of input |
| `JsonLexer.JSONInputStream.ReadNumber` | src/stx/json/jsoninputstream.cc:111-140 | the longest run of number characters |
| `JsonLexer.JSONInputStream.ExpectString` | src/stx/json/jsoninputstream.cc:215-225 | exactly the expected letters, or an error |
| `JsonLexer.JSONInputStream.ReadNextToken` | src/stx/json/jsoninputstream.cc:30-109 | the next token, the end, or an error; blanks, commas and colons skipped |
| `JsonLexer.BodyBack` | src/stx/json/jsoninputstream.cc:142-213 | reading an escaped string gives it back without the control bytes that have no short escape |
| `JsonLexer.QuoteLex` | src/stx/json/jsoninputstream.cc:30-109 | a quoted string, whatever follows, is one string token |
| `JsonLexer.NumberLex` | src/stx/json/jsoninputstream.cc:111-140 | a printed number before a separator or the end is one number token |
| `JsonLexer.StripIdentity` | src/stx/json/jsoninputstream.cc:142-213 | nothing is lost of a string iff it has no control byte without a short escape |
| `JsonMeaning.EscapeMeans` | src/stx/json/jsonoutputstream.cc:249-362 | read by section 7 of RFC 8259, with tables of its own, an escaped string stands for the string, for all strings |
| `JsonMeaning.RenderMeans` | src/stx/json/jsonoutputstream.cc:40-144 | every printed value says the value: its members, items, keys, strings, numbers and words in place |
| `JsonMeaning.StreamMeans` | src/stx/json/jsonoutputstream.cc:26-144 | the stack machine's text says the value, with its numbers as strings, which is how it prints them |
| `JsonMeaning.LiteralLex` | src/stx/json/jsoninputstream.cc:142-213 | any literal that section 7 allows, whatever follows it, is one token with the literal's string but for its code points |
| `JsonMeaning.LiteralReadIff` | src/stx/json/jsoninputstream.cc:142-213 | the tokenizer reads a literal as the standard does iff the literal holds no code point |
| `JsonMeaning.NumberMeans` | src/stx/json/jsoninputstream.cc:111-140 | a number is the longest run of number characters and blanks, without its blanks |
| `JsonMeaning.Skipped` | src/stx/json/jsoninputstream.cc:30-42 | commas, colons, blanks, line feeds and carriage returns in any number are passed over before a token |
| `JsonMeaning.OtherStart` | src/stx/json/jsoninputstream.cc:30-109 | no other byte starts a token: the end mark ends the input, the rest are errors, a tab among them |
| `JsonMeaning.WordsOnly` | src/stx/json/jsoninputstream.cc:215-225 | what starts like one of the three words is that word or an error |
| `JsonRoundTrip.ValueBack` | src/stx/json/jsoninputstream.cc:30-231 | tokenizing a printed value yields the tokens of the value that is read back, then those of what follows |
| `JsonRoundTrip.TextBack` | src/stx/json/jsoninputstream.cc:30-231 | tokenizing a whole printed text yields exactly the tokens of the value that is read back |
| `JsonRoundTrip.ReadBackIdentity` | src/stx/json/jsonoutputstream.cc:40-144 | reading back is the identity iff every string survives and no number is printed quoted |
| `JsonIndex.ParseJSON` | src/stx/json/json.cc:43-90 | `parseJSON` accepts exactly the depth-balanced token streams, keeps the tokens, and gives every opener the size that spans to its matching closer |
| `JsonIndex.IndexUnique` | src/stx/json/json.cc:43-90 | a token stream has only one vector of right sizes |
| `JsonIndex.FlatIsIndex` | src/stx/json/json.cc:43-90 | the flattened tree is balanced and its sizes are the right ones |
| `JsonIndex.FlatInjective` | src/stx/json/json.cc:43-90 | a skip-indexed vector stands for one tree only |
| `JsonIndex.ParseText` | src/stx/json/json.cc:33-90 | parsing a printed text gives the flattened tree that is read back, sizes included |
| `JsonIndex.PrintThenParse` | src/stx/json/json.cc:33-90 | through printer and parser the vector is the value's own iff the value survives |
| `JsonLookup.ObjectLookup` | src/stx/json/jsonutil.cc:147-183 | jumping by sizes finds the first member with the key, as on the tree; missing keys and non-objects as there |
| `JsonLookup.ArrayLength` | src/stx/json/jsonutil.cc:195-217 | the number of jumps is the number of the array's items |
| `JsonLookup.ArrayLookup` | src/stx/json/jsonutil.cc:232-258 | the n-th jump lands on the n-th item; out of range and non-arrays are errors |
| `JsonLookup.ObjectGetString` | src/stx/json/jsonutil.cc:28-39 | the typed getter on the vector equals the getter on the tree |
| `JsonLookup.ObjectGetUInt64` | src/stx/json/jsonutil.cc:54-65 | the same for unsigned numbers, quoted or bare |
| `JsonLookup.ObjectGetBool` | src/stx/json/jsonutil.cc:106-132 | the same for booleans |
| `JsonLookup.ArrayGetString` | src/stx/json/jsonutil.cc:273-285 | the n-th item if it is a string |
| `SchemaTypes.TypeNameBack` | src/stx/protobuf/MessageObject.cc:16-40 | a type's name reads back as the type |
| `SchemaJson.ToJSON` | src/stx/protobuf/MessageSchema.cc:474-531 | the recursive writer prints the schema's JSON tree |
| `SchemaJson.FieldToJSON` | src/stx/protobuf/MessageSchema.cc:485-527 | one field's object with its seven keys, and the sub-schema of an object field |
| `SchemaJson.FromJSON` | src/stx/protobuf/MessageSchema.cc:533-598 | the reader on the token vector equals reading the tree, errors included |
| `SchemaJson.FieldFromJSON` | src/stx/protobuf/MessageSchema.cc:548-597 | one column: required keys, type by name, sub-schema by recursion |
| `SchemaJson.SchemaBack` | src/stx/protobuf/MessageSchema.cc:474-598 | reading the tree a schema is written as gives the schema without hints and object sizes, at any depth |
| `SchemaJson.SchemaReadBack` | src/stx/protobuf/MessageSchema.cc:474-531 | the text's tree is the schema's tree with control bytes gone from names |
| `SchemaJson.LosslessIff` | src/stx/protobuf/MessageSchema.cc:474-598 | nothing is lost iff names survive, hints are NONE and object sizes 0 |
| `SchemaJson.SchemaThroughText` | src/stx/protobuf/MessageSchema.cc:474-598 | written, tokenized, indexed and read, a schema comes back as said above, and unchanged iff it is lossless, for every 64-bit size |
| `SchemaText.SchemaTextValid` | src/stx/protobuf/MessageSchema.cc:474-531 | what `toJSON` writes is a JSON text in the grammar of RFC 8259 |
| `SchemaText.SchemaTextMeans` | src/stx/protobuf/MessageSchema.cc:474-531 | and it says the schema's tree, with every name unescaped |
| `SchemaColumns.AnyCase` | src/stx/protobuf/MessageObject.cc:28-40 | a type is named in any case of its letters, and by nothing else |
| `SchemaColumns.ColumnRead` | src/stx/protobuf/MessageSchema.cc:548-597 | a column is read by its keys wherever they are; an absent size is zero, absent flags are false, an id loses what is above 32 bits |
| `SchemaColumns.ColumnRefused` | src/stx/protobuf/MessageSchema.cc:552-567 | a column without an id, a name or a type is refused |
| `SchemaColumns.SchemaRead` | src/stx/protobuf/MessageSchema.cc:533-547 | a schema may lack its name but not its columns |
| `SchemaColumns.ColumnsInOrder` | src/stx/protobuf/MessageSchema.cc:546-597 | each column gives the field of its place |
| `SchemaColumns.RefusedColumn` | src/stx/protobuf/MessageSchema.cc:546-597 | a schema whose columns are refused has a column that is refused by itself |
| `SchemaColumns.HintWritten` | src/stx/protobuf/MessageSchema.cc:515-519 | every column is written with the hint that says none |
| `SchemaColumns.FlagGiven` | src/stx/json/jsonutil.cc:106-132 | a flag is a truth value or one of four words, and absent otherwise |
| `SchemaColumns.Getters` | src/stx/json/jsonutil.cc:28-65 | what the getters make of each kind of value |
| `SchemaColumns.NumberGiven` | src/stx/json/jsonutil.cc:54-65 | a number up to 64 bits, quoted or bare, is that number; above it is an error |
| `Wire.VarUIntFits` | src/stx/util/binarymessagewriter.cc:92-103 | a 64-bit number takes at most ten LEB128 bytes, the size of the writer's buffer |
| `Wire.BinaryMessageWriter.AppendVarUInt` | src/stx/util/binarymessagewriter.cc:92-103 | the do-while loop appends the LEB128 form |
| `Wire.BinaryMessageWriter.AppendLenencString` | src/stx/util/binarymessagewriter.cc:87-90 | a string is appended behind its length |
| `Wire.BinaryMessageReader.Read` | src/stx/util/binarymessagereader_impl.h:108-119 | a bounds-checked read advances by the bytes it returns |
| `Wire.BinaryMessageReader.ReadVarUInt` | src/stx/util/binarymessagereader_impl.h:71-85 | the read loop sums seven-bit groups and stops at the first byte without the top bit |
| `Wire.BinaryMessageReader.ReadLenencString` | src/stx/util/binarymessagereader_impl.h:134-137 | a length and that many bytes |
| `Wire.VarBack` | src/stx/io/inputstream.cc:118-135 | reading the LEB128 form of a 64-bit number gives the number and leaves what follows it |
| `Wire.LenencBack` | src/stx/io/outputstream.cc:92-107 | a length-prefixed string reads back, whatever follows it |
| `Wire.WordBack` | src/stx/util/binarymessagewriter.cc:72-75 | the eight bytes of a word give the word |
| `WireFormat.VarUIntIs` | src/stx/util/binarymessagewriter.cc:92-103 | the LEB128 form has the shape, the value of its seven-bit digits and no needless byte |
| `WireFormat.VarUIntOnly` | src/stx/util/binarymessagewriter.cc:92-103 | and is the only such text |
| `WireFormat.ReadLeb` | src/stx/util/binarymessagereader_impl.h:71-85 | any LEB128 text of at most ten bytes, needless ones included, reads as its number modulo 2^64 |
| `WireFormat.ReadOpen` | src/stx/util/binarymessagereader_impl.h:71-85 | a text without an end among its first ten bytes is an error |
| `WireFormat.WordBytes` | src/stx/util/binarymessagewriter.cc:64-75 | a word has its lowest byte first |
| `Messages.EncodeObject` | src/stx/protobuf/MessageEncoder.cc:26-81 | one field by its type: key, length and children or value; a failure leaves nothing, or the key of a number, double or boolean field |
| `Messages.Encode` | src/stx/protobuf/MessageEncoder.cc:15-24 | all children in order, appended to the buffer only on success |
| `Messages.SkipUnknown` | src/stx/protobuf/MessageDecoder.cc:35-61 | a field the schema lacks is skipped by its wire type, other wire types fail |
| `Messages.ReadValue` | src/stx/protobuf/MessageDecoder.cc:77-119 | a known field's value by its type |
| `Messages.DecodeKnown` | src/stx/protobuf/MessageDecoder.cc:63-119 | a known field becomes a child, an object by recursion on exactly its bytes, also when the recursion fails half-way |
| `Messages.DecodeInto` | src/stx/protobuf/MessageDecoder.cc:23-120 | the decode loop adds the decoded children to the message, those before a failure included |
| `WireFormat.ConvertKeeps` | src/stx/protobuf/MessageObject.cc:222-284 | a number goes out as the same number, modulo 2^32 in a 32-bit field; strings, doubles and booleans unchanged; a 32-bit number in a boolean field says whether it is positive |
| `WireFormat.NumberRead` | src/stx/protobuf/MessageDecoder.cc:77-109 | a number read is the number modulo the field's width, and only one is true |
| `WireFormat.UnknownPassed` | src/stx/protobuf/MessageDecoder.cc:35-61 | a field the schema lacks is passed over if its wire type is 0, 1, 2 or 5 and its bytes are there |
| `WireFormat.UnknownRefused` | src/stx/protobuf/MessageDecoder.cc:35-61 | with any other wire type it ends the decoding |
| `WireFormat.ObjectCutShort` | src/stx/protobuf/MessageDecoder.cc:63-75 | an object whose bytes are not all there leaves a child without children |
| `WireFormat.NumberExample` | src/stx/protobuf/MessageEncoder.cc:26-81 | the documentation's example of Protocol Buffers: 150 in field 1 |
| `WireFormat.StringExample` | src/stx/protobuf/MessageEncoder.cc:26-81 | its string in field 2 |
| `WireFormat.NestedExample` | src/stx/protobuf/MessageEncoder.cc:26-81 | its message within a message |
| `WireFormat.DoubleExample` | src/stx/protobuf/MessageEncoder.cc:26-81 | a double is its word behind wire type 1 |
| `WireFormat.BooleanExample` | src/stx/protobuf/MessageEncoder.cc:26-81 | a boolean is the number one or zero |
| `MessageRoundTrip.KeyBack` | src/stx/protobuf/MessageEncoder.cc:43-45 | a key gives back the wire type and the low 29 bits of the id |
| `MessageRoundTrip.UnknownSkipped` | src/stx/protobuf/MessageDecoder.cc:35-61 | any encoded field whose id the reader lacks is passed over without a trace |
| `MessageRoundTrip.FieldBack` | src/stx/protobuf/MessageDecoder.cc:63-119 | an encoded field decodes to its converted value, projected to the reader's schema |
| `MessageRoundTrip.FieldsBack` | src/stx/protobuf/MessageDecoder.cc:23-120 | what any schema with fields removed, at any level, decodes of an encoded message is its projection, in order |
| `MessageRoundTrip.OlderReader` | src/stx/protobuf/MessageDecoder.cc:23-120 | well-typed messages always encode, and such a reader sees exactly the fields it knows |
| `MessageRoundTrip.MessageUnchanged` | src/stx/protobuf/MessageEncoder.cc:15-81 | decoding with the encoder's schema gives the message back iff every value has its field's kind and every id is below 2^29 |
| `MessageRoundTrip.NarrowRemove` | src/stx/protobuf/MessageSchema.cc:371-385 | removing a field whose id no other field has makes such a reader |
| `MessageRoundTrip.NarrowTwice` | src/stx/protobuf/MessageSchema.cc:371-385 | removals compose, at every level |
| `SchemaCodec.WriteSchema` | src/stx/protobuf/MessageSchema.cc:393-411 | version, name, count and fields, sub-schemas in place |
| `SchemaCodec.MessageSchema.Decode` | src/stx/protobuf/MessageSchema.cc:413-445 | the fields read are added, in order and with their indexes, to those that are there |
| `SchemaCodec.DecodeFieldFrom` | src/stx/protobuf/MessageSchema.cc:420-443 | one field, its sub-schema decoded into an object of its own |
| `SchemaCodec.SchemaBack` | src/stx/protobuf/MessageSchema.cc:387-452 | decoding an encoded schema returns it, nested schemas, sizes and hints included, and leaves what follows |
| `SchemaCodec.DecodedIndex` | src/stx/protobuf/MessageSchema.cc:413-452 | and the decoded object's three indexes agree with its field list |
| `WireFormat.SmallField` | src/stx/protobuf/MessageSchema.cc:398-413 | a field with small numbers byte by byte, with the numbers of its type and hint |
| `WireFormat.SmallSchema` | src/stx/protobuf/MessageSchema.cc:393-398 | a schema starts with version 1, its name and its number of fields |
| `WireFormat.AnyVersion` | src/stx/protobuf/MessageSchema.cc:417-425 | the reader does not look at the version |
| `SchemaCodec.MessageSchema.AddField` | src/stx/protobuf/MessageSchema.cc:364-369 | the field joins the list, each map keeps the first entry for a key, agreement is kept |
| `SchemaCodec.MessageSchema.RemoveField` | src/stx/protobuf/MessageSchema.cc:371-385 | the first field with the id leaves list and maps, agreement is kept iff it shared neither id nor name; an absent id changes nothing |
| `SchemaCodec.MessageSchema.FieldTypeOf` | src/stx/protobuf/MessageSchema.cc:328-339 | with agreeing indexes the lookup by id is the type of the first field with it; id 0 is an object |
| `SchemaCodec.MessageSchema.FieldNameOf` | src/stx/protobuf/MessageSchema.cc:341-352 | with agreeing indexes, the name of the first field with the id |
| `SchemaCodec.MessageSchema.FieldIdOf` | src/stx/protobuf/MessageSchema.cc:319-326 | with agreeing indexes, the id of the first field with the name |
| `SchemaCodec.AddAgrees` | src/stx/protobuf/MessageSchema.cc:364-369 | adding keeps list and indexes in agreement, for repeated ids and names too |
| `SchemaCodec.RemoveAgreesIff` | src/stx/protobuf/MessageSchema.cc:371-385 | removing keeps the agreement iff no other field has the removed field's id or name |
| `SchemaCodec.SharedName` | src/stx/protobuf/MessageSchema.cc:371-385 | two fields with one name, the first removed: the second is in the list but no longer found by its name |
| `SchemaCodec.HistoryAgrees` | src/stx/protobuf/MessageSchema.cc:364-385 | after every history of additions of new fields and removals, the indexes agree and ids and names are distinct |
| `SchemaCodec.InverseMaps` | src/stx/protobuf/MessageSchema.cc:319-352 | then the name and id indexes are inverse to each other |
| `Sha1.OrForms` | src/stx/SHA1.cc:189-211 | the code's OR forms are Ch and Maj of section 4.1.1 of FIPS 180-4 |
| `Sha1.InnerHash` | src/stx/SHA1.cc:170-221 | the in-place 80-word schedule and five round loops are one compression of section 6.1.2 |
| `Sha1.AllRounds` | src/stx/SHA1.cc:189-212 | eighty rounds with the standard's functions and constants |
| `Sha1.FillTail` | src/stx/SHA1.cc:254-261 | the byte loop leaves the last bytes, the one bit and zeros as big-endian words |
| `Sha1.HashBlocks` | src/stx/SHA1.cc:233-251 | all whole blocks folded, the tail left |
| `Sha1.HashTail` | src/stx/SHA1.cc:253-267 | padding and length in one block below 56 bytes, in two from 56 on |
| `Sha1.Output` | src/stx/SHA1.cc:269-272 | the five words as big-endian bytes |
| `Sha1.FoldTail` | src/stx/SHA1.cc:223-273 | hashing the padded message is hashing its whole blocks and then the padded tail |
| `Sha1.LengthWords` | src/stx/SHA1.cc:266-266 | the code's length words are the standard's iff the message is below 2^29 bytes |
| `Sha1.Compute` | src/stx/SHA1.cc:223-273 | the digest is the standard's hash with the upper length word zero, so the FIPS 180-4 hash below 2^29 bytes |
| `Sha1Examples.AbcExample` | src/stx/SHA1.cc:170-273 | the published digest of "abc": schedule, constants, initial value and byte order are the standard's |
| `Sha1Examples.LongExample` | src/stx/SHA1.cc:170-273 | the published digest of the 56-byte message, which takes a second block |
| `ResponseStream.HTTPResponseStream.StartResponse` | src/stx/http/HTTPResponseStream.cc:36-56 | the critical section: refused after a start or an error, else the header goes out |
| `ResponseStream.HTTPResponseStream.WriteBodyChunk` | src/stx/http/HTTPResponseStream.cc:62-70 | refused after an error, else appended and looked at |
| `ResponseStream.HTTPResponseStream.FinishResponse` | src/stx/http/HTTPResponseStream.cc:72-85 | marked finished once, and looked at |
| `ResponseStream.HTTPResponseStream.OnCallbackCompleted` | src/stx/http/HTTPResponseStream.cc:96-104 | the outstanding write is over, and the state is looked at |
| `ResponseStream.HTTPResponseStream.OnCallbackError` | src/stx/http/HTTPResponseStream.cc:106-113 | the error flag is set and no write is outstanding |
| `ResponseStream.HTTPResponseStream.OnStateChanged` | src/stx/http/HTTPResponseStream.cc:139-181 | with no write outstanding: the next 4 MiB at most, or the end, or nothing |
| `ResponseStream.ErrorEnds` | src/stx/http/HTTPResponseStream.cc:36-113 | after an error every further call throws and changes nothing, but for ending a response that has ended |
| `ResponseStream.HandedOver` | src/stx/http/HTTPResponseStream.cc:139-165 | what is handed over is the front of the pending bytes, all of them or 4 MiB |
| `ResponseStream.HTTPServerConnection.WriteResponseBody` | src/stx/http/httpserverconnection.cc:299-314 | the bytes join the write buffer; a closed connection throws after that |
| `ResponseStream.HTTPServerConnection.Write` | src/stx/http/httpserverconnection.cc:145-180 | the socket takes the next bytes behind the mark; the buffer is cleared exactly when none is left |
| `ResponseStream.HTTPServerConnection.Close` | src/stx/http/httpserverconnection.cc:328-343 | closed once, the second call throws |
| `ResponseStream.StepKeeps` | src/stx/http/HTTPResponseStream.cc:36-181 | every step of every interleaving, errors included, keeps the invariant below |
| `ResponseStream.RunGood` | src/stx/http/HTTPResponseStream.cc:36-181 | in every run: wire, unsent buffer, buffer in flight and pending buffer make up header and accepted chunks in order; one write at a time; none above 4 MiB; nothing forgotten |
| `ResponseStream.WireIsPrefix` | src/stx/http/HTTPResponseStream.cc:36-181 | at any time, after errors too, the wire is a prefix of the response |
| `ResponseStream.Delivered` | src/stx/http/HTTPResponseStream.cc:139-181 | started, finished, no write outstanding and no error: everything is on the wire and the connection was finished |
| `ResponseStream.FinishedWhenSent` | src/stx/http/HTTPResponseStream.cc:172-175 | the step that finishes the connection finds every accepted byte on the wire |
| `ResponseStream.FinishedOnce` | src/stx/http/HTTPResponseStream.cc:72-85 | with no chunk after the end the connection is finished at most once, and the wire is complete from then on |
| `ResponseStream.LateChunk` | src/stx/http/HTTPResponseStream.cc:62-70 | a chunk after that finishes the connection a second time iff it is empty |
| `ResponseStream.EndReached` | src/stx/http/HTTPResponseStream.cc:139-181 | from every reachable state of a started and finished response, with no error and the connection open, hand-over, socket writes and completions alone put all accepted bytes on the wire and finish the connection |
| `ResponseStream.EveryResponseEnds` | src/stx/http/HTTPResponseStream.cc:36-85 | every header and body can be sent in full by some run |
| `Sse.ParseEvent` | src/stx/http/HTTPSSEParser.cc:63-100 | the line loop takes the last data and name lines and calls back iff there is data |
| `Sse.FindEnd` | src/stx/http/HTTPSSEParser.cc:26-46 | the scan stops behind two line ends in a row, of any kind, or at the end |
| `Sse.HTTPSSEParser.Parse` | src/stx/http/HTTPSSEParser.cc:19-61 | all complete events of the buffer are emitted and the rest is kept |
| `Sse.CutAgrees` | src/stx/http/HTTPSSEParser.cc:26-51 | up to its first cut a buffer is one event to a byte-at-a-time automaton |
| `Sse.ScanAgrees` | src/stx/http/HTTPSSEParser.cc:19-61 | a rescanning call and the automaton emit the same events, and the kept bytes lead to the automaton's state |
| `Sse.FedAgrees` | src/stx/http/HTTPSSEParser.cc:19-61 | any sequence of calls sees what the automaton sees of all the bytes |
| `Sse.SplitsDoNotMatter` | src/stx/http/HTTPSSEParser.cc:19-61 | every split gives the same events, for all inputs; the kept bytes differ in leading line ends at most |
| `Sse.SendEvent` | src/stx/http/HTTPSSEStream.cc:59-77 | the name line, the data line and a blank line |
| `Sse.SendThenParse` | src/stx/http/HTTPSSEStream.cc:59-77 | a list of sent events comes back, under any split, iff every event has data, and data and names are on one line |
| `SseLines.EventOfLines` | src/stx/http/HTTPSSEParser.cc:63-100 | with any mix of the three line ends, an event has the data of its last data line and the name of its last name line, and is none without data |
| `SseLines.SentLines` | src/stx/http/HTTPSSEStream.cc:59-77 | a sent event is a name line, if it has a name, a data line and a blank line, each ended by a line feed |
| `SseLines.EventCut` | src/stx/http/HTTPSSEParser.cc:19-61 | a blank line of any kind ends the event, and what follows is parsed by itself |
| `ThreadPool.CachedThreadPool.Run` | src/stx/thread/threadpool.cc:46-56 | the task is queued and a thread started iff tasks outnumber free threads |
| `ThreadPool.CachedThreadPool.Enter` | src/stx/thread/threadpool.cc:124-136 | a worker counts itself free, and takes the front task if there is one |
| `ThreadPool.CachedThreadPool.Look` | src/stx/thread/threadpool.cc:127-135 | the check after a wake-up: the front task, or waiting again |
| `ThreadPool.StepKeeps` | src/stx/thread/threadpool.cc:46-153 | every step of submitters, notifications and workers keeps the invariant |
| `ThreadPool.RunGood` | src/stx/thread/threadpool.cc:46-153 | in every interleaving: tasks taken once and in order, free and thread counters exact, tasks at most free plus starting threads, and for each task a starting or woken thread or a notification to come |
| `ThreadPool.RunSound` | src/stx/thread/threadpool.cc:46-153 | in every run, failing thread starts included: tasks taken once and in order, the free counter exact, the thread counter never too small |
| `ThreadPool.RunCached` | src/stx/thread/threadpool.cc:111-149 | in every run the cached threads, which never end, are at most `max_cached_threads` |
| `ThreadPool.StartsWhen` | src/stx/thread/threadpool.cc:46-56 | where thread starts succeed, in every run, a submission starts a thread iff tasks outnumber idle workers, and a cached one iff fewer than `max_cached_threads` threads are alive |
| `ThreadPool.CountersPositive` | src/stx/thread/threadpool.cc:134-149 | no counter is decremented at zero, in any run |
| `ThreadPool.FrontTaskTaken` | src/stx/thread/threadpool.cc:111-153 | from any such state at most two steps without a submitter take the front task |
| `ThreadPool.TakenIff` | src/stx/thread/threadpool.cc:111-153 | in any reachable state, failing thread starts included, `k` queued tasks can be taken without another submission iff a cached worker can come back or at least `k` others can still take one, with spurious wake-ups or without |
| `ThreadPool.FrontTakenIff` | src/stx/thread/threadpool.cc:111-153 | with spurious wake-ups the front task can be taken iff some worker starts, waits, is woken, is between tasks, or runs and is cached |
| `ThreadPool.QueueDrains` | src/stx/thread/threadpool.cc:46-153 | where every thread start succeeds, the whole queue can be taken from every reachable state, without another submission or a spurious wake-up |
| `ThreadPool.CreationFails` | src/stx/thread/threadpool.cc:150-152 | when a thread cannot be created, all queued tasks can still be taken iff there is a cached worker, or uncached ones that can take them are more than were queued before |
| `ThreadPool.Stranded` | src/stx/thread/threadpool.cc:150-152 | a concrete run in which a failed thread start leaves a task that nothing can take before another submission |
| `Pages.PageManager.AllocPage` | src/stx/io/pagemanager.cc:32-48 | the aligned size, first fit on the free list, else new space at the end, in 64-bit arithmetic |
| `Pages.PageManager.FreePage` | src/stx/io/pagemanager.cc:51-55 | the page joins the free list |
| `Pages.PageManager.FindFreePage` | src/stx/io/pagemanager.cc:58-70 | the first page that is large enough leaves the list, or nothing changes |
| `Pages.AlignedCovers` | src/stx/io/pagemanager.cc:36-37 | the aligned size is a block multiple, and covers the request iff the sum does not wrap |
| `Pages.AllocSize` | src/stx/io/pagemanager.cc:32-48 | the page is a block multiple at least as large as requested |
| `Pages.RunTiles` | src/stx/io/pagemanager.cc:32-70 | after every history that frees live pages only, live and free pages are disjoint and tile the space from the start to the end position |
| `Pages.LivePagesApart` | src/stx/io/pagemanager.cc:32-70 | a byte of a page in use is in no free page and no other page in use |
| `Pages.MmapPageManager.GetPage` | src/stx/io/pagemanager.cc:131-194 | used bytes, file size and mapping after handing out a page |
| `Pages.MmapPageManager.ShrinkFile` | src/stx/io/pagemanager.cc:115-118 | the file is cut to the used bytes |
| `Pages.FileCovers` | src/stx/io/pagemanager.cc:115-194 | after every history used bytes are within the file, and every page ever handed out ends within the file and its own mapping |
| `Pages.FileGrows` | src/stx/io/pagemanager.cc:131-162 | a page beyond the end makes the file as long as the page, or, padded, the least multiple of 128 system pages beyond it |
| `UrlCoding.UrlEncode` | src/stx/uri.cc:16-101 | unreserved bytes stand for themselves, others become `%` and two hex digits |
| `UrlCoding.UrlDecode` | src/stx/uri.cc:103-140 | `%` with two hex digits is a byte, with others itself, with too few an error; `+` is a blank |
| `UrlCoding.DecodeEncoded` | src/stx/uri.cc:16-140 | decoding undoes encoding for all byte strings |
| `UrlCoding.EncodedFirst` | src/stx/uri.cc:16-101 | which bytes stand for themselves, and the two upper-case digits of the others, by sections 2.1 and 2.3 of RFC 3986 |
| `UrlCoding.WrittenBack` | src/stx/uri.cc:103-140 | for every byte string and every way to write each byte, itself, two hex digits of either case, or `+` for a blank, decoding gives the string |
| `UrlCoding.WrittenCut` | src/stx/uri.cc:103-140 | a `%` with fewer than two bytes behind it is an error |
| `UrlCoding.StrayBack` | src/stx/uri.cc:103-140 | text in which no `%` has two hex digits behind it stands for itself, except that `+` is a blank |
| `UrlCoding.ParseQueryString` | src/stx/uri.cc:374-398 | pairs up to the first empty or unvalued key, decoded; a bad encoding is an error |
| `UrlCoding.PairText` | src/stx/uri.cc:408-411 | the formatted pair is key, `=`, value, as encoded text holds no placeholder |
| `UrlCoding.BuildQueryString` | src/stx/uri.cc:400-415 | the formatted pairs joined by `&` |
| `UrlCoding.ParseBuilt` | src/stx/uri.cc:374-415 | parsing a built query string gives the parameters before the first empty key |
| `UrlCoding.QueryRoundTrip` | src/stx/uri.cc:374-415 | a parameter list survives iff no key is empty |
| `UrlCoding.FormQuery` | src/stx/uri.cc:374-398 | a query string that anyone form-encoded gives its keys and values in order, up to an empty key or a key without a value |
| `Uri.ParseURI` | src/stx/uri.cc:270-372 | scheme, authority, path, query and fragment by their delimiters; a port beyond `int` is an error |
| `Uri.ToString` | src/stx/uri.cc:233-268 | the components with their delimiters, absent ones left out |
| `Uri.FullText` | src/stx/uri.cc:233-268 | the text of a URI in which nothing is missing |
| `Uri.WellFormedBack` | src/stx/uri.cc:233-372 | a well-formed URI is parsed from its own text |
| `Uri.ParsedClean` | src/stx/uri.cc:270-372 | no parse yields a component holding the characters that end it |
| `Uri.RoundTrip` | src/stx/uri.cc:233-372 | printing and parsing gives a URI back iff it is well-formed |
| `CivilTime.UnixMicros` | src/stx/UnixTime.cc:23-41 | the two loops and the sum give the exact number modulo 2^64 |
| `CivilTime.LoopsAreGregorian` | src/stx/UnixTime.cc:26-32 | from 1970 on the year and month loops are the closed-form Gregorian day count |
| `CivilTime.MonthTable` | src/stx/ISO8601.cc:286-292 | the month lengths add up to the table of days before each month |
| `CivilTime.ExactOrder` | src/stx/UnixTime.cc:23-41 | before reduction modulo 2^64, the order of calendar times at one offset is the order of the numbers, both ways |
| `CivilTime.OrderKept` | src/stx/UnixTime.cc:34-40 | the stored 64-bit numbers of two times at one offset are in the order of the calendar iff both times or none lie before 1970 in UTC |
| `CivilTime.OrderLost` | src/stx/UnixTime.cc:34-40 | two times of the first of January 1970, an hour east of UTC, whose stored numbers are in the wrong order |
| `CivilTime.StoredIsExact` | src/stx/UnixTime.cc:34-40 | the stored number is the exact one, or 2^64 more when the time is before 1970 in UTC |
| `CivilTime.LastDays` | src/stx/ISO8601.cc:286-292 | the month lengths are the calendar's |
| `CivilTime.MillisecondCounts` | src/stx/UnixTime.cc:23-41 | from each millisecond of the calendar to the next, over the end of a second, minute, hour, day, month or year, the number grows by a thousand |
| `CivilTime.CountStarts` | src/stx/UnixTime.cc:23-41 | the number of midnight of the first of January 1970 in UTC is zero |
| `CivilTime.EastIsEarlier` | src/stx/UnixTime.cc:34-40 | a second of offset more is a million microseconds less |
| `ColumnType.SummaryStep` | src/stx/human.cc:183-380 | one more value moves the type as it moves the set of types seen |
| `ColumnType.ColumnIsSummary` | src/stx/human.cc:183-380 | the type of a column is a function of the set of its values' types |
| `ColumnType.PermutedRows` | src/stx/human.cc:183-380 | permuting the rows does not change the type |
| `Base64.Encode` | src/stx/util/Base64.cc:86-115 | from two bytes on: four digits for three bytes, and padded digits for the last one or two |
| `Base64.Decode` | src/stx/util/Base64.cc:41-68 | the leading digits in fours, and the last four at most one by one |
| `Base64.RoundTrip` | src/stx/util/Base64.cc:41-115 | decoding undoes the encoding, which the encoder computes from two bytes on |
| `Base64.DigitIsSymbol` | src/stx/util/Base64.cc:86-115 | the encoder's table is the alphabet of RFC 4648 |
| `Base64.EncodedFirst` | src/stx/util/Base64.cc:86-115 | three bytes are the number of their 24 bits in four digits, whatever follows |
| `Base64.EncodedLast` | src/stx/util/Base64.cc:86-115 | of the last two bytes three digits and `=` are left, of the last byte two and `==` |
| `Base64.EncodedLength` | src/stx/util/Base64.cc:86-115 | the length is a multiple of four |
| `Base64.DecodedStops` | src/stx/util/Base64.cc:41-68 | what follows the first byte that is no digit does not matter |

## Left out

- Sockets, files, `mmap`, DNS, terminals, logging, statistics, flags, RPC and reflection templates: calls into the system or thin wrappers; a socket write is any number of bytes it takes.
- `PosixScheduler`, `executor/ThreadPool`, `FixedSizeThreadPool`, `CoalescingDelayedQueue`, `FlatJSONReader`, `UTF8` and the parsing of ISO 8601 strings.
- The HTTP response generator, and a request's cookies and keep-alive test: they would add easy members beside the request.
- Floating point: a double in a message is its eight-byte word, `objectGetFloat` and `addFloat` are not modelled.
- Memory: allocation failures, buffer growth, and sizes beyond what `size_t` or an `int` loop counter can hold, except where a contract names the bound.
- HttpParser.HTTPParser.Parse: the calls after one that threw are not modelled; body counters are unbounded numbers, not 64-bit ones; all callbacks are taken to be set.
- HttpRequest.RequestRoundTrip: for requests whose fields keep clear of the delimiters and placeholders that would cut or rewrite them, lower-case header names as `addHeader` stores them, and a content-length header, if there is one, that tells the body's length.
- JsonIndex.ParseJSON: sizes are said to be right below 2^32 tokens; the code's size field is 32 bits wide and wraps above.
- JsonGrammar.RenderValid: bytes outside ASCII are not checked to be UTF-8; bare numbers are the integers the program prints.
- SchemaJson.FromJSON: the token vector holds a value, as `parseJSON` of a text with one value gives it; other vectors are not followed.
- Wire.BinaryMessageReader.Read: the checked build is modelled; a length so large that position plus length passes 2^64 is an error here and wraps around in the code.
- Wire.BinaryMessageReader.ReadVarUInt: an eleventh byte is an error here; in the code it shifts by 70 bits, which C++ leaves undefined.
- Messages.DecodeInto: a field with id 0 that is no object has no sub-schema and the code has no schema to follow when there are children; the model gives it a schema without fields.
- SchemaCodec.DecodeFieldFrom: a type or encoding byte that names no enumerator is an error here; the code keeps it as it is.
- Sha1.Compute: for messages below 2^31 bytes, as the code's cursors are `int`s.
- ResponseStream.RunGood: the request is taken to have been read before the response starts; `waitForReader` and the callback for a drained buffer are not modelled, reference counts neither.
- Sse.HTTPSSEParser.Parse: the cursor is unbounded, not an `int`.
- ThreadPool.RunGood: for runs in which every thread start succeeds (`RunSound`, `TakenIff` and `CreationFails` are about all runs); tasks that throw, and thread names, are not modelled.
- Pages.RunTiles: requested sizes rounded up, and the end position where an allocation moves it, stay below 2^64; the code's sums wrap beyond.
- Pages.FileCovers: offsets do not wrap; `shrinkFile` does not take the lock that `getPage` takes, and is modelled as one step.
- JsonMeaning.RenderMeans: says that the text denotes the value, not that it denotes no other one; a surrogate's code point is taken by itself.
- WireFormat.SmallField: for numbers and name lengths that take one byte; larger ones are in LEB128 as `WireFormat.VarUIntIs` says.
- CivilTime.OrderKept: for calendar years from 1970 on and without leap seconds; an earlier year counts as 1970 in the code.
- ColumnType.ColumnIsSummary: the detection of a single value's type is a parameter.
- Base64.Encode: for two bytes or more; with fewer the code's loop bound wraps around and it reads past its input.
