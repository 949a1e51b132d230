# spidentd: a Dafny model of the ident daemon's query pipeline

`spidentd.py` is a small, programmable RFC 1413 ("ident") daemon. A client
connects, sends `<local-port>, <remote-port>\r\n`, and gets back one line
naming the local user that owns that TCP connection, or an error code. The
answer comes from an ordered list of *drivers* (`drivers`), with optional
*mappings* between them that rename the user a later driver reports. The
drivers are:

- the fixed-answer drivers (`Driver`, `NoUserDriver`, `HiddenUserDriver`,
  `FailDriver`, `StaticDriver`);
- `RealDriver`, which reads the kernel's TCP table `/proc/net/tcp` and the
  password database;
- `SocketDriver`, a registration channel on a Unix socket. Cooperating
  processes announce `add IP:PORT IP:PORT USER` and `remove IP:PORT IP:PORT`
  on it, and each peer session (`SocketDriverClient`) keeps its own table.

This project models that core in Dafny and proves what it promises.

| file | module | models |
|---|---|---|
| `wrappers.dfy` | `Wrappers` | `Option` |
| `text.dfy` | `Text` | the Python string built-ins the daemon relies on: `strip`, `split`, `split(sep, 1)`, `find`, `startswith`, `int()`, `long(x, 16)`, `%i`, `%08X` |
| `ident.dfy` | `Ident` | the connection key `(localport, localip, remoteport, remoteip)` and a driver's answer: no opinion, a string, or an exception |
| `proc_tcp.dfy` | `ProcTcp` | `RealDriver.lookup`: dotted-quad packing, `htonl`, decoding a table row, the search loop |
| `registration.dfy` | `Registration` | the command language, `read_line`, the peer session (`class Client`), the channel and its list of sessions (`class Registry`) |
| `drivers.dfy` | `Drivers` | every driver's `lookup`, `Mapping` and `FileMapping` (loading the file, looking a user up) |
| `chain.dfy` | `Chain` | the loop `for d in drivers` of `input_thread`, including the mapping scope and the `FailDriver` appended at start-up |
| `query.dfy` | `Query` | `input_thread`: framing the query, checking the ports, formatting the reply |

The inputs that come from outside are parameters:

- a connection is the sequence of chunks `recv` returns;
- the kernel table is its lines (`None` when the file cannot be opened);
- the password database is a map from uid to name;
- the addresses of the socket's two ends are the texts the socket layer reports.

A driver's `lookup` that raises is modelled as the answer `Raised`. The
session thread then dies without sending anything.

Some consequences of the code are easy to miss, and the model keeps them:

- **Malformed `/proc/net/tcp` rows.** Only rows with fewer than eight
  fields are passed over. A longer row whose address or port field does
  not decode raises, and so does one that names the connection asked about
  and whose uid field does not decode; the query then goes unanswered
  (`ProcTcp.Examine`, verdict `Fails`). The uid of a row naming another
  connection is never read.
- **An unreadable port.** When the local field is not a number, the
  `INVALID-PORT` reply echoes both fields as received, unstripped: `abc, 80`
  is answered `abc, 80:ERROR:INVALID-PORT` (`Query.UnreadableLocal`). When
  only the remote field is unreadable, the local port is echoed as `int()`
  read it, so ` 80, x` and `080, x` are both answered `80, x:ERROR:INVALID-PORT`
  (`Query.UnreadableRemote`).
- **A list no driver answers.** The loop over the drivers falls back to
  `ERROR:NO-USER` (`Query.NoDriverAnswers`). The `FailDriver` appended at
  start-up answers every query that reaches it, so the configured daemon
  answers `ERROR:UNKNOWN-ERROR` instead (`Query.ConfiguredSession`).
- **Mapped names that look like errors.** Only a result that already
  starts with `ERROR:` skips the mapping. A name that a mapping renames to
  an `ERROR:...` text is then sent as an error reply
  (`Query.FirstDriverReplies`).
- **Empty registrations.** The channel's lookup passes over a session whose
  entry for the key is the empty string, because `if connuser:` tests
  truthiness. A later session's entry can then answer
  (`Registration.Registered`).

## Model

| member | source | states |
|---|---|---|
| Text.BeforeFirst | spidentd.py:220 | `buf.split("\r",1)[0]` is a prefix of the buffer, holds no `\r`, and stops at the first `\r` when there is one |
| Text.BeforeFirstAt | spidentd.py:220 | the text before a separator that does not occur earlier is exactly the text before it |
| Text.JoinSplit | spidentd.py:222 | `split` loses nothing: joining the parts with the separator gives the text back |
| Text.SplitPair | spidentd.py:222 | `p,q` with no comma in either splits into exactly `[p, q]` |
| Text.Fields | spidentd.py:74 | `l.split()` yields non-empty fields with no whitespace in them |
| Text.FieldsBlank | spidentd.py:74 | `split()` of a line holding only whitespace gives no fields |
| Text.FieldsWord | spidentd.py:74 | `split()` skips leading whitespace and takes a word up to the next whitespace as the first field |
| Text.FieldsLayout | spidentd.py:74 | `split()` of words laid out in columns, separated by runs of whitespace of any length and with whitespace before and after, gives back exactly those words |
| Text.FieldsJoin | spidentd.py:74 | `split()` of words joined by single spaces, after any leading whitespace, gives back exactly those words |
| Text.StripSpec | spidentd.py:229-230 | `strip()` leaves no whitespace at either end and leaves already stripped text unchanged |
| Text.ParseIntText | spidentd.py:257 | `int()` reads back the number `%i` printed, negative numbers included |
| Text.ParseIntPadded | spidentd.py:229-230 | `int(x.strip())` reads a number preceded by spaces as that number |
| Text.ParseIntSignPadded | spidentd.py:229-230 | `int()` reads a sign followed by whitespace and the digits of a number as that number, negated for `-` |
| Text.HexText | spidentd.py:78-79 | the fixed-width hexadecimal text of a number, as the kernel writes it, has exactly that width, holds hexadecimal digits only and denotes that number |
| ProcTcp.Unpack | spidentd.py:69-70 | packing four octets with shifts gives a 32-bit word from which each octet reads back |
| ProcTcp.Bytes | spidentd.py:69-70 | every 32-bit word is the packing of its four bytes |
| ProcTcp.SwapPack | spidentd.py:78 | `htonl` on a little-endian host packs the bytes in reverse order |
| ProcTcp.SwapTwice | spidentd.py:78 | `htonl` is its own inverse |
| ProcTcp.Htonl | spidentd.py:78 | `htonl` succeeds exactly on 32-bit values, and its result byte-swaps back to its argument |
| ProcTcp.ParseNumbersFails | spidentd.py:69 | one part that is not a number makes `[long(i) for i in ...]` raise |
| ProcTcp.ParseNumbersOf | spidentd.py:69 | parts that read as numbers convert to the list of those numbers, in order |
| ProcTcp.PackQuadText | spidentd.py:69-72 | the dotted-quad text of an address packs to that address's 32-bit value |
| ProcTcp.KernelEndpoint | spidentd.py:77-82 | an endpoint written the kernel's way, as the address word stored little-endian followed by the port in hex, decodes to the packed dotted-quad value and the port |
| ProcTcp.HexEndpoint | spidentd.py:76-79 | a word and a port written as `%08X:%04X` split at the colon and decode to the word's byte swap and the port |
| ProcTcp.KernelTextWord | spidentd.py:76-82 | an endpoint the kernel writes is one non-empty field with no whitespace, and it decodes to the packed address and the port |
| ProcTcp.ShortRow | spidentd.py:73-75 | a row of fewer than eight fields, however its columns are padded with whitespace, is passed over, and so is a blank line |
| ProcTcp.KernelRow | spidentd.py:73-90 | a row, however its columns are padded, whose second and third fields are endpoints as the kernel writes them and whose eighth is a uid gives that uid when its endpoints are the connection asked about, and is passed over otherwise |
| ProcTcp.UserName | spidentd.py:86-90 | a uid in the password database gives its name; any other uid gives `ERROR:NO-USER` |
| ProcTcp.ScanFirstDecisive | spidentd.py:73-91 | the first row that is not skipped decides: a match gives its owner's name, an undecodable row raises, and if every row is skipped there is no opinion |
| ProcTcp.Lookup | spidentd.py:62-91 | the driver's loop with its early returns computes the driver's answer (`RealLookup`) |
| Registration.OtherLine | spidentd.py:126-141 | a line that starts with neither `add ` nor `remove ` is not a command |
| Registration.Apply | spidentd.py:126-140 | `add` sets the key to the user, `remove` deletes it, any other line leaves the table as it is, and no other key changes |
| Registration.ParseAddLine | spidentd.py:126-131 | an `add` line in the channel's format is read as a registration of that user for the key it names: the ports through `int()`, the addresses as written |
| Registration.ParseRemoveTrailing | spidentd.py:132-137 | a `remove` line is read as the key it names even when text that does not continue the port follows, because the pattern is anchored at the start only |
| Registration.ParseRemoveLine | spidentd.py:132-137 | a `remove` line in the channel's format is read as the key it withdraws |
| Registration.PrintedEndpoint | spidentd.py:94-95 | numbers printed in decimal form an endpoint the patterns accept, with the address text and port they name |
| Registration.PrintedAddLine | spidentd.py:126-131 | an `add` line printed from numbers registers the user for the connection those numbers name, addresses in dotted decimal |
| Registration.PrintedRemoveLine | spidentd.py:132-137 | a `remove` line printed from numbers withdraws the connection those numbers name |
| Registration.AddressForm | spidentd.py:94-95 | the text `\d+\.\d+\.\d+\.\d+` matches at the start of a line is four numerals joined by dots, and the match is exactly that text |
| Registration.EndpointForm | spidentd.py:94-95 | the text an endpoint's groups match is an address, a colon and a numeral; the address group is that address text, the port is the numeral through `int()`, and no digit follows the port |
| Registration.KeyForm | spidentd.py:94-95 | the text the four endpoint groups match is two such endpoints separated by one space; they name the key the groups give, and no digit follows |
| Registration.ParsedAdd | spidentd.py:126-131 | every line read as an `add` is `add `, a local endpoint, a space, a remote endpoint, a space and a rest; it registers the rest up to its first newline for the key those endpoints name; `add_re` accepts nothing else |
| Registration.ParsedRemove | spidentd.py:132-137 | every line read as a `remove` is `remove `, two endpoints separated by a space, and text that does not start with a digit; it withdraws the key those endpoints name; `remove_re` accepts nothing else |
| Registration.LineCases | spidentd.py:126-141 | every line is ignored, or is an `add` or a `remove` of two endpoints in the channel's format; a line starting with a keyword that the patterns reject is ignored like any other |
| Registration.NextLineReads | spidentd.py:143-154 | `read_line` stops at the first newline of what it has read, returning the text before it and keeping the rest in the buffer; it returns nothing, keeping what it read, once the buffer exceeds 1024 bytes with no newline or the peer closes; until it stops, the buffer never held a newline or more than 1024 bytes |
| Registration.ReadsUpToShift | spidentd.py:145-154 | while the buffer holds no newline and at most 1024 bytes, reading on is exactly reading the next non-empty chunk into it |
| Registration.ReadsUpToNextLine | spidentd.py:143-154 | a read that stops at the first newline, the first buffer over 1024 bytes without one, or the peer's close, is the one `read_line` makes: its result is unique |
| Registration.NextLineConsumes | spidentd.py:145-147 | a returned line is consumed: strictly less is left to read |
| Registration.NextLineSuffix | spidentd.py:143-154 | `read_line` only consumes input: the chunks it leaves unread are the last ones it was given |
| Registration.SessionEnd | spidentd.py:119-154 | the chunks a session leaves unread when its loop stops are the last ones it was given |
| Registration.Registered | spidentd.py:181-186 | the channel never answers with an empty name |
| Registration.RegisteredFirst | spidentd.py:181-186 | the first session holding a non-empty name for the key decides; with none, the channel has no opinion |
| Registration.RegisteredFrom | spidentd.py:181-186 | every answer of the channel is a name some session holds for that key |
| Registration.RegisteredSkip | spidentd.py:182-185 | sessions holding no name for the key are passed over |
| Registration.AddThenRemove | spidentd.py:126-140 | after an `add` in a session that no earlier session overrides, the channel answers with that user; after a `remove`, the key falls to the later sessions |
| Registration.RegisteredDrop | spidentd.py:109-113 | a session leaving the list changes no lookup for a key it holds no name for; if it held the first name, the key falls to the sessions after it |
| Registration.Position | spidentd.py:111 | the index of the first occurrence of a session in the list, or the list's length |
| Registration.Without | spidentd.py:111-113 | `clients.remove(self)` removes the first occurrence of a listed session, keeping the others in order, and leaves the list unchanged (the ValueError is ignored) otherwise |
| Registration.Client.constructor | spidentd.py:96-103 | a new session starts with an empty table and an empty buffer |
| Registration.Client.Recv | spidentd.py:151 | `recv` takes the next chunk; at the end of input it returns the empty string |
| Registration.Client.ReadLine | spidentd.py:143-154 | `read_line`'s loop leaves the line, buffer and input that `NextLine` specifies |
| Registration.Client.Execute | spidentd.py:126-140 | carrying out a command changes the table as `Apply` does; removing an absent key is no error |
| Registration.Client.Step | spidentd.py:121-141 | one turn of the loop reads a line and applies its command; it reports whether to go on (a line was read and is not empty) |
| Registration.Client.Run | spidentd.py:119-141 | the session's loop leaves its table as the commands of its lines, applied in order, make it, and stops with the buffer and unread chunks of the read that gave no line or an empty one |
| Registration.Registry.constructor | spidentd.py:179 | the channel starts with no sessions |
| Registration.Registry.Accept | spidentd.py:187-190 | a new session with an empty table joins the end of the list; each session stays in the list at most once |
| Registration.Registry.Lookup | spidentd.py:181-186 | the loop over the sessions returns what `Registered` specifies for their tables in list order |
| Registration.Registry.Finish | spidentd.py:105-117 | when a session ends, its table is emptied and it leaves the list, its buffer and unread input stay as they were; the other sessions' tables keep their order and contents |
| Drivers.Consult | spidentd.py:19-41 | only `RealDriver` can raise; `FailDriver`, `NoUserDriver` and `HiddenUserDriver` answer error codes; the registration channel never answers with an empty name |
| Drivers.FixedAnswers | spidentd.py:19-41 | the fixed drivers answer the same for every connection, `StaticDriver` answers its reply, and only `Driver` has no opinion |
| Drivers.SocketAnswers | spidentd.py:181-186 | `SocketDriver` as a driver answers with the first session's name for the key, or has no opinion |
| Drivers.Ask | spidentd.py:249 | asking a driver gives its answer as `Consult` specifies |
| Drivers.MapUser | spidentd.py:43-59 | `Mapping` leaves the name alone; `FileMapping` leaves a name its table lacks alone |
| Drivers.ReadMapLine | spidentd.py:53-56 | a line of a mapping file read as a pair is, once stripped, the key, one colon and the value, neither holding a colon |
| Drivers.ReadMapLineOf | spidentd.py:53-56 | a line that strips to a colon-free key, a colon and a colon-free value is read as that pair |
| Drivers.LoadMapping | spidentd.py:50-57 | the loading loop fails (raises) exactly when `Load` does, and otherwise builds the table `Load` specifies |
| Drivers.LoadSucceeds | spidentd.py:52-57 | a mapping file loads exactly when each non-blank line holds exactly one colon |
| Drivers.LoadLastWins | spidentd.py:52-57 | each key maps to the value on the last line naming it; keys no line names keep their earlier value |
| Drivers.FileMapsByLastLine | spidentd.py:49-59 | `FileMapping(path).lookup(u)` is the value on the last line naming `u`, or `u` itself |
| Chain.Settle | spidentd.py:252-254 | an error code, or a result with no mapping in force, is passed on unchanged |
| Chain.RunDrivers | spidentd.py:241-261 | the loop over the list, with its early exits, computes `Resolve` |
| Chain.LastMapper | spidentd.py:244-245 | the mapping in force is one that occurs in the list |
| Chain.SkipSilent | spidentd.py:243-251 | passing drivers with no opinion only brings into force the last mapping passed |
| Chain.FirstAnswerDecides | spidentd.py:243-261 | the first driver with an opinion decides: its result, renamed by the last mapping before it unless it is an error code, or no reply if it raised |
| Chain.NoAnswer | spidentd.py:243-251 | if no driver has an opinion, the loop ends undecided whatever the mappings |
| Chain.FirstLoud | spidentd.py:243-251 | the search stops at the first driver with an opinion, or at the end of the list |
| Chain.Outcomes | spidentd.py:241-261 | the loop ends undecided exactly when every driver is silent; otherwise the first driver with an opinion decides it |
| Chain.Configured | spidentd.py:354 | the configured list is the list the options build followed by one more driver |
| Chain.ConfiguredAlwaysDecides | spidentd.py:354 | with `FailDriver` appended, the loop is never undecided; if no configured driver answers, the result is `ERROR:UNKNOWN-ERROR`, which no mapping renames |
| Query.ReadQuery | spidentd.py:201-219 | the receive loop returns the buffer `Frame` specifies |
| Query.FrameComplete | spidentd.py:202-219 | the query buffer is what the chunks add up to when it first holds `\r\n`, with no empty chunk and no buffer over 1024 bytes before then; and whenever the chunks complete it this way, it is read |
| Query.FrameBounded | spidentd.py:202-219 | a query buffer that is read holds `\r\n` and at most 1024 bytes |
| Query.TooLong | spidentd.py:213-217 | a second chunk that takes the buffer past 1024 bytes closes the session without a reply, even when it brings the `\r\n` |
| Query.CheckFields | spidentd.py:222-226 | the query is dropped without a reply exactly when it is not two comma-separated fields |
| Query.CheckPorts | spidentd.py:227-240 | two fields are never dropped: they are accepted or answered `INVALID-PORT` |
| Query.CheckNumbers | spidentd.py:236-240 | two numeric fields are accepted exactly when both are in 1..65535, and are otherwise rejected with the numbers as read |
| Query.QueryFields | spidentd.py:220-222 | the two fields of `local,remote\r...` are exactly `local` and `remote` |
| Query.ReadPorts | spidentd.py:220-230 | two space-padded numbers are read as those numbers |
| Query.NumericQuery | spidentd.py:220-240 | a query of two space-padded numbers is accepted when both are in 1..65535 and otherwise answered `INVALID-PORT` with the numbers as `%i` prints them |
| Query.UnreadableLocal | spidentd.py:228-235 | an unreadable local port echoes both fields exactly as received |
| Query.UnreadableRemote | spidentd.py:228-235 | for any local field `int()` reads, padded or written `080` or `+80`, an unreadable remote port echoes the local port as the number read and the remote field as received |
| Query.NotTwoFields | spidentd.py:220-226 | a query line with no comma, or with two commas, is dropped |
| Query.ReplyLine | spidentd.py:256-263 | there is a reply unless a driver raised, and it starts with the two ports and a colon |
| Query.ReplyPorts | spidentd.py:257-263 | the client reads the two ports back from any reply: the text before the first colon is the two numbers, separated by a comma |
| Query.Respond | spidentd.py:222-240 | a dropped query gets no reply; a rejected query gets its `INVALID-PORT` line and `\r\n` |
| Query.Session | spidentd.py:209-217 | a session whose query never completes sends nothing |
| Query.InputThread | spidentd.py:197-266 | `input_thread` sends exactly what `Session` specifies |
| Query.NoDriverAnswers | spidentd.py:262-265 | a valid query that no driver in the list has an opinion on is answered `L,R:ERROR:NO-USER` |
| Query.ConfiguredSession | spidentd.py:241-265 | with the configured list, a valid query goes unanswered exactly when a driver raised; if no driver answers, the reply is `L,R:ERROR:UNKNOWN-ERROR` |
| Query.ConfiguredRespond | spidentd.py:241-265 | with the configured list, the reply to a checked query is missing exactly when a driver raised, and is `L,R:ERROR:UNKNOWN-ERROR` when no driver answers |
| Query.FirstDriverReplies | spidentd.py:249-265 | the first driver with an opinion writes the reply: a `USERID:UNIX:` reply for a name (after mapping), an error reply for an `ERROR:` result |

## Left out

- **Not modelled:** sockets, `bind`, `listen`, `accept`, `select`, threads,
  signals and the `exit` flag, `setuid`/`setgid`, `chmod`/`chown` of the
  registration socket, `getopt` and `usage`, and logging to stderr. These
  are I/O and process management. The chunks a connection delivers,
  `/proc/net/tcp`, the password database and the socket addresses are
  parameters instead.
- **Registration.Client.Run:** the loop runs until its input ends. The
  global `exit` flag it also checks is process shutdown, which is not
  modelled.
- **Retries after `EINTR`:** an interrupted `recv` in `input_thread` is
  retried, and this is not modelled. The chunk sequence holds only the
  receives that returned. Any other receive error closes the session, like
  an empty chunk.
- **Threads and concurrency:** concurrent sessions are not modelled. A
  lookup of the registration channel is taken over a snapshot of the
  sessions' tables (`Drivers.Socket(tables)`, `Registry.Lookup`). Races
  between a lookup and a concurrent `add`/`remove` are not modelled.
- **Broken socket close:** `self.sock.close()` in `run_thread` names a
  missing attribute, so the socket is never closed there. Its error is
  swallowed, and the model leaves the call out.
- **Text.ParseInt:** models Python 2's `int()` on a byte string in base
  10: whitespace, an optional sign, whitespace, decimal digits, whitespace.
  It also stands for `long(i)` at spidentd.py:69, which further accepts a
  trailing `L` or `l` (`long("1L") == 1`); the model rejects that form, so
  such a part of a socket address counts as unreadable.
- **Text.ParseHex:** accepts hexadecimal digits only. It does not model
  the whitespace, sign, `0x` prefix or trailing `L` that `long(x, 16)` also
  accepts. The kernel never writes these.
- **ProcTcp.Swap32:** models `socket.htonl` as the byte reversal of a
  little-endian host. On a big-endian host `htonl` is the identity, and
  that case is not modelled.
- **The `& 0xffffffffL` after `htonl`:** left out, because `htonl`'s result
  already fits in 32 bits (`ProcTcp.Htonl`).
- **`pwd.getpwuid`:** modelled as a finite map from uid to name. Any
  failure of the call is the uid being absent, which gives
  `ERROR:NO-USER`.
- **Exceptions:** an exception raised inside a driver's `lookup`, or
  `FileMapping`'s `ValueError` on a bad line, is a `Raised` answer or a
  `None` table. The stack trace and the thread's death are not modelled.
- **Registration.ParseCommand:** models only the behaviour of `add_re` and
  `remove_re` that matters here. `\d` is taken to be ASCII digits, and `.*`
  stops at a newline. The line itself never holds one, because
  `read_line` splits there.
- **Registration.Session:** models a session's commands applied in
  sequence to its own table. The interleaving of several sessions is
  covered only through the tables passed to `Registered`.
