# GDM discovery: a Dafny model of the scanner's reply handling and the responder's descriptor

GDM ("Good Day Mate") is the discovery protocol of the Plex media ecosystem.
A scanner sends one probe. It then collects the reply datagrams that devices
send back and turns each reply into an entry `{data, from}`. A reply's
`data` are the `Name: value` header lines of an HTTP/1.0-like text. A
responder answers each probe it receives with a fixed descriptor: the
status line `HTTP/1.0 200 OK`, then ten CRLF-terminated header lines.

The project models both sides of `gdm.py`:

- `wrappers.dfy` (`Wrappers`): `Option` and `Result`.
- `text.dfy` (`Text`): the Python `str` operations that the reply parser
  relies on.
  - `splitlines()`, with every line boundary that Python recognises.
  - `split(':')`, which splits at every colon.
  - `strip()`, with Python's full `isspace` set.
  - The substring test `sub in s`.
- `discovery.dfy` (`Discovery`): the scanner (class `GDM`). It contains:
  - the parse of one reply: the `200 OK` test, the header comprehension and
    the exceptions it can raise;
  - the scan as a function over the received replies, with deduplication by
    `Resource-Identifier`;
  - a reference description of which replies give entries;
  - the two queries;
  - the class `Gdm`, whose `entries` field `Update` resets and then appends
    to, in a loop over the replies.
- `advertiser.dfy` (`Advertiser`): the responder (`GDMAdvertiser`). It contains:
  - the identity constants;
  - `appendNameValue`;
  - `getResponseString`, parameterised by the identity it advertises;
  - the round trip from the descriptor through the scanner's parser and the
    scan.

The network is not modelled. A scan takes the replies it receives as input:
their decoded text and sender, in arrival order. The responder's identity
(module-level variables in `gdm.py`) is an `Identity` value.
`Advertiser.SourceIdentity` holds the values that `gdm.py` assigns.

Four behaviours of the code differ from what a description of the protocol
suggests. The model follows the code:

- The header comprehension takes every line that holds a colon, the first
  line included, not only the lines after it.
- `line.split(':')` splits at every colon, not at the first. A line with two
  or more colons cannot be unpacked into `k, v`. The resulting `ValueError`
  is not caught, so it ends the whole scan rather than skipping that reply.
  An empty reply does the same through the `IndexError` of
  `splitlines()[0]`. In both cases the entries gathered before the failing
  reply stay in `entries`: the scan raises instead of returning, and
  `entries` is not emptied.
- `find_by_content_type` raises `KeyError` as soon as an entry lacks
  `Content-Type`.
- Only the values are stripped, not the keys. A line ` Name : myserver `
  is stored under the key ` Name `, with its spaces, and not under `Name`.

## Model

| member | source | states |
|---|---|---|
| Text.Contains | gdm.py:134 | Python's `in` on strings, as in the `200 OK` test: a prefix occurs, and nothing longer than the text occurs in it |
| Text.SplitLines | gdm.py:134-137 | `splitlines()`: no lines exactly for the empty text; the first line is the text up to the first line boundary; no line contains a line boundary |
| Text.LineEnds | gdm.py:134-137 | one terminator per line; each is `"\r\n"` or a single boundary character, except that the last line may have none |
| Text.CrLfOneTerminator | gdm.py:134-137 | `"\r\n"` is one terminator: a `"\r"` terminator is never followed by an empty line that ends in `"\n"` |
| Text.SplitLinesRejoin | gdm.py:134-137 | each line followed by its terminator gives back the text: `splitlines()` drops only the terminators |
| Text.UnterminatedLastLine | gdm.py:134-137 | a last line without a terminator is not empty, so a text ending in a terminator gives no empty line after it |
| Text.SplitLinesOfCrlfTerminated | gdm.py:134-137 | splitting lines that are each terminated by CRLF, and contain no boundary, gives back exactly those lines |
| Text.Split | gdm.py:136 | `split(':')`: one part more than there are separators, no part contains the separator, and joining the parts with it restores the line |
| Text.SplitAtSingle | gdm.py:136-137 | with exactly one colon, the two parts are the text before it and the text after it |
| Text.SplitWithout | gdm.py:136 | a line without the separator splits into itself alone |
| Text.Count | gdm.py:136 | the number of separators is zero exactly when the separator is absent |
| Text.CountConcat | gdm.py:136 | separator counts add up over a concatenation |
| Text.SkipSpace | gdm.py:135 | the first non-whitespace position at or after a start, with only whitespace skipped |
| Text.SkipSpaceBack | gdm.py:135 | the end of a block once its trailing whitespace is dropped, with only whitespace dropped |
| Text.Strip | gdm.py:135 | `strip()`: the result is a block of the input with only whitespace around it, and its ends are not whitespace |
| Text.StripUnchanged | gdm.py:135 | a value without surrounding whitespace is stored verbatim |
| Text.StripIdempotent | gdm.py:135 | stripping twice is stripping once |
| Text.StripSkipsLeadingSpace | gdm.py:135 | leading whitespace, such as the space after `": "`, does not change the stored value |
| Discovery.KeyOf | gdm.py:136-137 | the key is the verbatim, unstripped text before the first colon |
| Discovery.RawValueOf | gdm.py:136-137 | the line is its key, a colon, then the raw value |
| Discovery.ParseLine | gdm.py:135-137 | a line without a colon is skipped; a line with one colon gives its verbatim key and stripped value; a line with more colons raises `TooManyColons` |
| Discovery.ParseHeaders | gdm.py:135-137 | the comprehension succeeds exactly when no line holds more than one colon; its only error is `TooManyColons` |
| Discovery.ParseHeadersKeys | gdm.py:135-137 | the keys of the result are exactly the keys of the lines that hold a colon |
| Discovery.ParseHeadersLastWins | gdm.py:135-137 | a key's value is the stripped value of the last line that declares it |
| Discovery.ParseHeadersFirstError | gdm.py:135-137 | the comprehension raises on the first line with more than one colon |
| Discovery.ProcessReply | gdm.py:133-137 | an empty reply raises `EmptyReply`; a reply is rejected exactly when its first line lacks `200 OK`; otherwise it is accepted with the parsed fields, or raises what the parse raises |
| Discovery.Identifier | gdm.py:138 | `ddata.get('Resource-Identifier')`: present exactly when the key is, and then its value |
| Discovery.IsTruthy | gdm.py:139 | an identifier is truthy exactly when it is present and not the empty string |
| Discovery.Step | gdm.py:130-143 | one pass of the receive loop: after an exception nothing changes; a pass that raises keeps the lists; the entries and `known_responses` only grow, by at most one, and together |
| Discovery.Collected | gdm.py:130-143 | after `n` replies there are as many entries as known identifiers, and at most `n` of each |
| Discovery.Scanned | gdm.py:130-143 | a scan keeps at most one entry per reply |
| Discovery.Receptions | gdm.py:132-137 | one reception per reply |
| Discovery.ReceptionAt | gdm.py:132-137 | reception `i` is the verdict on reply `i` together with its sender, in arrival order |
| Discovery.CollectedKnownTracksEntries | gdm.py:138-143 | `known_responses` holds the identifier of each entry, position by position |
| Discovery.CollectedIdentifiersUnique | gdm.py:138-143 | after a scan, even one that raised, no two entries share a non-empty `Resource-Identifier` |
| Discovery.CollectedStopsAtError | gdm.py:130-145 | once a reply has raised, later replies change nothing |
| Discovery.CollectedCompletes | gdm.py:130-145 | a scan raises nothing when no reply raises |
| Discovery.CollectedFailsAt | gdm.py:130-145 | a scan raises the error of the first failing reply and keeps the entries gathered before it |
| Discovery.CollectedIsExpected | gdm.py:102-143 | a completed scan's entries are the kept replies in arrival order, and `known_responses` holds exactly the identifiers announced |
| Discovery.KeptReplyListed | gdm.py:138-143 | every kept reply (accepted, and its identifier empty, missing or new) gives an entry |
| Discovery.ListedReplyKept | gdm.py:138-143 | every entry comes from a kept reply |
| Discovery.FirstArrivalKept | gdm.py:138-143 | the first arrival with a given identifier, and every reply without a non-empty identifier, is listed |
| Discovery.DroppedReplyAddsNothing | gdm.py:134-141 | a rejected reply or a repeat of a known identifier changes neither `entries` nor `known_responses` |
| Discovery.RepeatedReply | gdm.py:138-143 | the same accepted reply received twice is listed once if its identifier is non-empty, and twice otherwise |
| Discovery.RepeatedAcceptance | gdm.py:138-143 | the same, for two acceptances with the same fields |
| Discovery.Filter | gdm.py:55-56 | a conditional list comprehension: an order-preserving subsequence holding each element that satisfies the condition as often as the input does, and no other |
| Discovery.FilterKeepsAll | gdm.py:61-63 | a condition that every element satisfies keeps the whole list |
| Discovery.SelectByContentType | gdm.py:55-56 | raises `MissingField("Content-Type")` exactly when some entry lacks the field; otherwise selects the entries whose content type contains the value |
| Discovery.SelectByData | gdm.py:61-63 | the order-preserving subsequence of the entries that hold every item of the query, each kept as often as it occurs |
| Discovery.SelectByDataEmptyQuery | gdm.py:61-63 | an empty query returns all entries |
| Discovery.Gdm.constructor | gdm.py:37-38 | a new scanner has no entries |
| Discovery.Gdm.Update | gdm.py:102-143 | `entries` is reset, then holds the outcome of the scan of these replies (earlier scans leave no trace); the error returned is the one the scan raised |
| Discovery.Gdm.Scan | gdm.py:40-42 | a scan is an update |
| Discovery.Gdm.All | gdm.py:44-50 | scans, then returns the entries, or the error the scan raised |
| Discovery.Gdm.FindByContentType | gdm.py:52-56 | scans, then returns the selection by content type without changing `entries` |
| Discovery.Gdm.FindByData | gdm.py:58-63 | scans, then returns the selection by query without changing `entries` |
| Advertiser.AppendNameValue | gdm.py:210-212 | `buf` is an unchanged prefix of the result, which is longer by the name, the value and four separator characters |
| Advertiser.AppendNameValueExtends | gdm.py:210-212 | what follows the kept buffer is `name: value` and CRLF |
| Advertiser.AppendNameValueAddsLine | gdm.py:210-212 | appending to CRLF-terminated lines adds one more CRLF-terminated line |
| Advertiser.HeaderLines | gdm.py:169-178 | one header line per field |
| Advertiser.ResponseString | gdm.py:167-179 | the descriptor starts with the status line and its CRLF |
| Advertiser.ResponseAfterAll | gdm.py:168-179 | ten appends, in order, build the descriptor |
| Advertiser.ResponseLayout | gdm.py:167-179 | the descriptor is the status line, then one CRLF-terminated `Name: value` line per field in the fixed order Name, Port, Product, Content-Type, Protocol, Protocol-Version, Protocol-Capabilities, Version, Resource-Identifier, Device-Class |
| Advertiser.AdvertisedFieldsAdvertisable | gdm.py:169-178 | for an advertisable identity, all ten advertised names and values contain neither a colon nor a line break |
| Advertiser.AdvertisedNamesDistinct | gdm.py:169-178 | no two advertised fields share a name |
| Advertiser.AdvertisedNames | gdm.py:169-178 | the advertised names, in descriptor order |
| Advertiser.NamesIndex | gdm.py:135-137 | the names of the fields, position by position |
| Advertiser.FieldMapKeys | gdm.py:135-137 | the keys of the dictionary built from the fields are exactly their names |
| Advertiser.FieldMapLastWins | gdm.py:135-137 | the last field with a name decides that name's value |
| Advertiser.StrippedFieldsNames | gdm.py:135 | stripping the values keeps the names |
| Advertiser.StrippedFieldMap | gdm.py:135-137 | with distinct names, the keys are the names and each maps to its stripped value |
| Advertiser.StrippedLookup | gdm.py:135-137 | with distinct names, one field's name maps to its stripped value |
| Advertiser.StrippedLookupUnchanged | gdm.py:135-137 | a value without surrounding whitespace is recovered verbatim |
| Advertiser.ParseHeaderLine | gdm.py:135-137 | a `name: value` line whose name and value are free of colons and line breaks parses back to the name and the stripped value |
| Advertiser.ParseHeaderLines | gdm.py:135-137 | the lines of such fields parse back to the dictionary of their stripped values |
| Advertiser.ResponseSplitsIntoLines | gdm.py:134 | `splitlines()` recovers the status line and the ten header lines from the descriptor |
| Advertiser.StatusLineAccepted | gdm.py:168 | the status line passes the `200 OK` test |
| Advertiser.ResponseLinesParse | gdm.py:135-137 | the descriptor's lines parse to the advertised dictionary |
| Advertiser.ResponseRoundTrip | gdm.py:167-179 | when no configured value holds a colon or a line break, the scanner accepts the descriptor and recovers the advertised dictionary |
| Advertiser.RecoveredKeys | gdm.py:169-178 | the recovered dictionary holds exactly the ten header names |
| Advertiser.RecoveredValues | gdm.py:169-178 | each advertised name maps to the stripped value that the descriptor gave it |
| Advertiser.RecoveredPort | gdm.py:170 | the port is recovered as `32400` |
| Advertiser.RecoveredContentType | gdm.py:172 | the content type is recovered as `plex/media-player` |
| Advertiser.RecoveredIdentifier | gdm.py:177 | the identifier the scanner deduplicates by is the stripped machine identifier |
| Advertiser.ResponderListedOnce | gdm.py:138-143 | a device that answers twice, with a non-blank machine identifier, is listed once, under the address of its first answer |
| Advertiser.AnonymousResponderListedTwice | gdm.py:139 | a device with a blank machine identifier is listed once per answer |
| Advertiser.SourceResponderListedOnce | gdm.py:18-27 | the configured identity is advertisable; a scan identifies it as `test123` and lists it once |

## Left out

- Sockets (gdm.py:106-132, 144-147): the probe, the TTL and broadcast options,
  `recvfrom` and the timeout that ends the receive loop. These are network
  I/O. A scan takes the received replies as its input.
- `scan_for_clients` (gdm.py:114-123): it only configures the socket: the
  target address and port and, for clients, the `SO_REUSEADDR` and
  `SO_BROADCAST` options (gdm.py:116-117). The model's scan has no such
  parameter.
- `recvfrom(1024)` truncates longer datagrams. The model takes each reply's
  text as received.
- UTF-8 decoding (gdm.py:133): replies are already-decoded strings, so a
  `UnicodeDecodeError` cannot occur in the model.
- Insertion order of the `data` dictionary: fields are a `map`. The model
  keeps which key maps to which value, not the order of the keys.
- `GDMAdvertiser.createAnswerSocket` (gdm.py:151-165): a receive-and-reply
  loop with `print`. The socket has a 10-second timeout (gdm.py:154, 158)
  and the `recvfrom` (gdm.py:161) is not guarded, so the loop ends with an
  uncaught `socket.timeout` after 10 seconds without a datagram. Only the
  descriptor it sends is modelled.
- `GDMAdvertiserRequestHandler` (gdm.py:182-207): an HTTP handler that builds
  XML through `lxml`, a library that is not part of this model. The
  `platform` and `platform_version` constants appear only there; they are
  carried in `Identity` but not advertised.
- `main` (gdm.py:215-231) and main.py: demonstration output, threads and
  HTTP server start-up, with no logic of their own.
- Advertiser.ResponseRoundTrip: it assumes the configured values contain no
  colon and no line break. For other values it does not describe what the
  scanner makes of the descriptor.
