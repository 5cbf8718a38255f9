# mikogo, modelled in Dafny

mikogo is an IRC bot. It keeps one TLS connection per configured IRC server. Each
connection joins the channels configured for it and answers `m/` commands in those
channels and in private messages. Server records (an address and a list of channels)
live in a bbolt store and are encoded with CBOR. The owner, writing from the home
server, administers the bot through chat commands.

This project models the core of the bot and proves properties of the model:

- **One server connection** (`irc/client.go`).
  - `IrcSession` states each operation of `Client` as a function on a `Session` value.
  - `IrcClient.Client` is a class with the Go struct's fields. It performs each operation
    step by step and is proved equal to that function.
  - The socket is a flag (`connOpen`) plus a log of the frames written to it (`wire`).
  - The read loop is a sequence of read results.
  - Each of the three regular expressions is reduced to the capture groups it yields.
  - The goroutines started and the incidents reported are recorded as events.
- **The pool of connections** (`irc/pool.go`, `irc/incident.go`, `irc/ping.go`).
  - `IrcPool.Pool` is a class over a `map<string, Client?>`.
  - `Sync` is proved against the three-phase function `SyncedState`.
  - A nil dereference in Go is modelled as a `Panicked` outcome.
- **Pure encoders.**
  - IRC formatting codes (`Ircf`).
  - Half-block image cells (`HalfBlock`).
  - GLSL-style integer modulo (`ImageMath`).
  - Folding pixel rows into pairs (`ImageHex`).
- **The store** (`db/cborcrud.go`).
  - A bucket is `Option<map<string, Blob<T>>>`: `None` is a missing bucket. A `Blob` is
    `Empty` (no bytes), `Encoded` (the encoding of a value) or `Garbage` (bytes CBOR
    cannot decode).
  - `Db.CborCrud` is a class whose methods update that map.
- **The command layer** (`command/*.go`, `cmdmenu/*.go`).
  - Tokenising, the prefix rule and the owner rule are modelled, and so is dispatch to
    the registered commands.
  - The sub-command menu tree is modelled as a pure `Tree` and as a `Node` class.
  - So are the help, test, server and channel commands.
  - A handler's outcome is `Handled`: the effects it performed, in order (replies, raw
    frames, `irc.Sync`, incidents, ...), and the value it panicked with, if any.
    Store writes are real calls on `Db.CborCrud`.
- **Settings** (`env/env.go`).
  - Lookup with a fallback.
  - The defaults.
  - The Go version string.

Collaborators that are not part of this model become parameters:

- `irc.GetClient` and `irc.Init` are not part of this model. The pool's state is passed
  in instead.
- `db.GetServerByAddress` is not part of this model. Its answer is the parameter `lookup`.
- The random batch id, the outcome of a TLS dial, the lines a connection reads, and the
  commit hash and Go runtime version are all parameters as well.

The modelled Go files come from different revisions of mikogo and do not compile together:

- Handler signatures differ from one file to another.
- `Get` returns two values in one file and three in another.
- `Runnable.Run` takes other arguments than the menus implement.

Each function is therefore modelled on its own terms. The menu's usage printer is
`Commands.UsageReply`. A handler receives the message it answers.

`GLSLModi` is named after GLSL's `mod`, but it does not behave like GLSL's `mod`
(`GLSLModf`, `x - y*floor(x/y)`) for a negative divisor. Its result is always in
`[0, |y|)`: it is the Euclidean remainder. GLSL's result takes the sign of `y`.
`ImageMath.GLSLModiVersusFloorMod` states the exact relation. The model follows the code.

## Model

| member | source | states |
|---|---|---|
| `Env.GetEnv` | env/env.go:27-33 | a variable that is set (even to the empty string) gives its value; an unset one gives the fallback |
| `Env.Load` | env/env.go:12-21 | DEV is on iff the variable is set; NICK, OWNER and HOME_SERVER each come from the environment or fall back to their defaults |
| `Env.LoadDefaults` | env/env.go:15-21 | with nothing set, the settings are nick `mikogo`, owner `maki`, home server `127.0.0.1:6697`, DEV off |
| `Env.LoadKeepsEmptyValue` | env/env.go:28-31 | NICK set to the empty string yields the empty nick, not the default |
| `Env.GetGoVersion` | env/env.go:35-39 | the version holds no space and is no longer than the runtime string |
| `Env.GoVersionOf` | env/env.go:35-39 | `go<v>` and `go<v> <anything>` both give `<v>` for a space-free `<v>` |
| `Common.TrimPrefix` | command/command.go:79 | with the prefix, prefix ++ result is the input; without it, the input is returned unchanged |
| `Common.TrimSpace` | command/command.go:78 | the result is the input with a prefix and a suffix of Unicode white space cut off, and it neither starts nor ends with white space |
| `Common.ToLowerFixedPoints` | command/command.go:86 | lower-casing changes a string iff it holds a character that lowers (A-Z, U+0130, U+212A); lowering twice is lowering once |
| `Common.ToLowerExamples` | command/command.go:86 | `İnfo` and `INFO` both lower to `info`; a Kelvin sign lowers to `k` |
| `Common.ToLowerHasNoUpper` | cmdmenu/menu.go:41 | a lower-cased name contains no character that lower-casing would change |
| `Common.IndexOf` | command/adminchannel.go:54-58 | -1 iff absent; otherwise the index of the first occurrence |
| `Common.RemoveFirstSplits` | command/adminchannel.go:60 | deleting index i of the first occurrence leaves the elements before and after in order, and removes exactly one copy |
| `Common.SplitJoin` | irc/client.go:158 | joining the pieces of strings.Split with the separator gives back the text |
| `Common.SplitCount` | irc/client.go:158-159 | strings.Split yields one piece more than the separator count |
| `Common.Decimal` | ircf/color.go:58 | `%d` prints at least one digit and only digits |
| `Common.DecimalRoundTrip` | ircf/color.go:58-60 | reading the `%d` digits back gives the number |
| `Common.ZeroPad` | irc/client.go:146 | `%0Nd` has width max(N, digit count), all digits |
| `Common.ZeroPadRoundTrip` | irc/client.go:146 | reading the padded digits back gives the number |
| `Common.Hex2` | ircimage/halfblock.go:22 | `%02x` gives two lower-case hex digits whose value is the byte |
| `Common.ByteLenAppend` | command/admintest.go:15 | Go's byte length of a concatenation is the sum of the lengths |
| `Common.ByteLenAscii` | command/admintest.go:22-25 | an ASCII text is as many bytes long as it has characters |
| `Ircf.StyleAlgebra` | ircf/color.go:29-44 | bold is idempotent; bold and colour commute; a later colour with a background overrides an earlier one, one without keeps the earlier background; re-applying the foreground changes nothing |
| `Ircf.BoldPrefix` | ircf/color.go:29-68 | making a style bold puts exactly 0x02 in front of what the style renders without bold |
| `Ircf.Format.PrefixCodes` | ircf/color.go:52-64 | the prefix starts with 0x02 iff bold; holds 0x03 iff fg > 0; holds `,` iff fg > 0 and bg > 0; never holds the reset code; holds only codes, commas and digits |
| `Ircf.PrefixDeterminesStyle` | ircf/color.go:52-64 | two styles write the same prefix iff they agree on bold and fg, and on bg when fg is set |
| `Ircf.Bold` | ircf/color.go:34-36 | the zero format with bold set |
| `Ircf.Color` | ircf/color.go:46-48 | the zero format with the given fg and optional bg |
| `Ircf.PlainFormat` | ircf/color.go:66-68 | the zero format only appends 0x0f |
| `Ircf.BoldWhitePrefix` | ircf/color.go:74 | BoldWhite is bold with fg 98 and no bg; its prefix is 0x02 0x03 `98` |
| `Ircf.PrefixLength` | ircf/color.go:52-64 | the prefix length is the sum of the parts that bold, fg and bg add |
| `Ircf.FormatAddsNoLineBreak` | ircf/color.go:52-68 | formatting a line never adds a line break |
| `Ircf.FormatInjective` | ircf/color.go:66-68 | one format never renders two messages the same |
| `HalfBlock.ColorHex` | ircimage/halfblock.go:21-23 | six lower-case hex digits |
| `HalfBlock.ColorHexRoundTrip` | ircimage/halfblock.go:21-23 | parsing the six digits gives back r, g and b |
| `HalfBlock.HexIRCKeepsColours` | ircimage/halfblock.go:21-27 | the cell's two hex fields read back as the top and bottom colours; two cells encode alike iff their colours agree on r, g and b |
| `HalfBlock.CodeIRC` | ircimage/halfblock.go:35-67 | succeeds iff each non-zero half is a valid code (16..98); otherwise panics about the top code first and the bottom code second |
| `HalfBlock.CodeRoundTrip` | ircimage/halfblock.go:39-67 | every encoded cell decodes back to its top and bottom codes |
| `HalfBlock.CellHasNoNewline` | ircimage/halfblock.go:21-67 | no cell encoding contains a line break |
| `HalfBlock.RowIRC` | ircimage/halfblock.go:74-78 | a row encodes without line breaks |
| `HalfBlock.RowIRCSkipsNil` | ircimage/halfblock.go:74-78 | a nil cell at either end of a row changes neither its text nor its panic |
| `HalfBlock.RowsIRC` | ircimage/halfblock.go:73-80 | one line break per row |
| `HalfBlock.ImageIRC` | ircimage/halfblock.go:71-82 | the image starts with `.` and a line break, followed by the rows; it panics iff a row does |
| `HalfBlock.ImageLineCount` | ircimage/halfblock.go:71-82 | the output has one line break more than the image has rows |
| `HalfBlock.RowOkWhenCellsOk` | ircimage/halfblock.go:74-78 | a row whose cells all encode does not panic |
| `ImageMath.GoRem` | ircimage/math.go:26 | Go's `%`: the remainder is smaller than \|y\| and has the sign of x |
| `ImageMath.GoDivision` | ircimage/math.go:26 | x == (x / y) * y + x % y under Go's truncating division |
| `ImageMath.GLSLModi` | ircimage/math.go:21-39 | panics iff y == 0; otherwise the result is in [0, \|y\|) |
| `ImageMath.GLSLModiMultiple` | ircimage/math.go:26-38 | x minus the result is a multiple of y |
| `ImageMath.GLSLModiNonNegative` | ircimage/math.go:26-30 | for x >= 0 and y > 0 it is Go's `x % y` |
| `ImageMath.GLSLModiIsEuclidean` | ircimage/math.go:21-39 | the result is the Euclidean remainder for every non-zero y |
| `ImageMath.GLSLModiVersusFloorMod` | ircimage/math.go:17-39 | it agrees with GLSL's floored mod for y > 0; for y < 0 it is the floored result shifted by -y when that is non-zero |
| `ImageHex.ConvertImageWithHexColors` | ircimage/imagehex.go:8-28 | an odd height is the error "height must be a multiple of 2"; otherwise the grid is the folded image |
| `ImageHex.FoldedShape` | ircimage/imagehex.go:16-25 | height/2 rows of width cells each, none nil |
| `ImageHex.FoldedEmpty` | ircimage/imagehex.go:16 | height 0 gives an empty grid |
| `ImageHex.PixelInOneHalf` | ircimage/imagehex.go:18-24 | pixel (x, y) is the top of cell (y/2, x) for even y and the bottom for odd y |
| `ImageHex.OffsetOriginReadsBlack` | ircimage/imagehex.go:18-24 | the loop counts from 0, not from the image's origin; for an image whose origin is right of 0, the first cell reads outside the bounds and is transparent black |
| `Db.GetIn` | db/cborcrud.go:41-56 | Ok iff the bucket exists and the key holds decodable bytes; otherwise a missing bucket, a missing key or a decode failure |
| `Db.MissingBucket` | db/cborcrud.go:19-21 | every operation on a missing bucket fails with "<bucket> bucket not found" and writes nothing |
| `Db.GetAfterPut` | db/cborcrud.go:58-72 | put succeeds on an existing bucket, the key then reads back the value, and other keys are unaffected |
| `Db.AddIsGuardedPut` | db/cborcrud.go:74-92 | add fails with "already exists" iff the key is present, writing nothing; otherwise it is put |
| `Db.DeleteRemovesOnlyKey` | db/cborcrud.go:94-107 | delete fails with "not found" iff the key is absent; it removes only that key, and a later add of the key succeeds |
| `Db.CborCrud.GetAll` | db/cborcrud.go:15-39 | a missing bucket is an error; any entry that does not decode fails the whole call; otherwise every entry is listed once, in ascending key order |
| `Db.ListingUnique` | db/cborcrud.go:24-32 | a bucket has exactly one listing, so what GetAll returns is determined by the bucket |
| `Db.CborCrud.Put` | db/cborcrud.go:58-72 | the new bucket and the error are those of PutIn on the old bucket |
| `Db.CborCrud.Add` | db/cborcrud.go:74-92 | the new bucket and the error are those of AddIn on the old bucket |
| `Db.CborCrud.Delete` | db/cborcrud.go:94-107 | the new bucket and the error are those of DeleteIn on the old bucket |
| `IrcSession.NewSessionWaitsForInit` | irc/client.go:362-382 | a new client ignores send, ping and sync until init; init on it starts exactly one loop and a second init is refused |
| `IrcSession.FormattedStateParts` | irc/client.go:70-82 | each state's label is bold white on its own background; the three labels differ |
| `IrcSession.LabelText` | irc/client.go:70-82 | the label is the state's name wrapped in seven prefix bytes and the reset code |
| `IrcSession.PrivmsgLength` | irc/client.go:135-143 | the frame's byte length is 16 plus the byte lengths of nick, user, host, target and text |
| `IrcSession.PrivmsgCarriesText` | irc/client.go:135-143 | the frame starts with `:nick!`, ends with the text then CR LF |
| `IrcSession.SyncResult` | irc/client.go:96-133 | afterwards the current list is the kept channels followed by the joined ones; one JOIN per joined channel, then one PART per dropped channel |
| `IrcSession.JoinedMember` | irc/client.go:105-119 | a channel is joined iff it is a target, starts with `#` and is not current |
| `IrcSession.KeptMember` | irc/client.go:121-132 | a channel is kept iff it is current and a target |
| `IrcSession.SyncMembership` | irc/client.go:96-133 | after a sync, a channel is current iff it is a target and it was current or starts with `#` |
| `IrcSession.SyncFrame` | irc/client.go:96-100 | a sync changes only the current list and the wire, and nothing at all unless active and connected |
| `IrcSession.SyncIdempotent` | irc/client.go:96-133 | a second sync with the same target changes nothing and writes nothing |
| `IrcSession.BatchBodies` | irc/client.go:148-150 | each body frame is `@batch=<id> ` followed by that line's PRIVMSG frame |
| `IrcSession.SendSingleLine` | irc/client.go:158-162 | a message without a line break is sent as one PRIVMSG frame |
| `IrcSession.SendBatch` | irc/client.go:145-165 | k line breaks give k+3 frames: BATCH +id, one tagged body per line, BATCH -id; the id is the 3-digit zero-padded batch number |
| `IrcSession.KickRemovesFirst` | irc/client.go:167-188 | an incident is always reported; an absent channel leaves the list alone; otherwise exactly the first occurrence is removed |
| `IrcSession.PrivmsgFirst` | irc/client.go:196-212 | a PRIVMSG match is dispatched and nothing else happens; a private message answers to the sender |
| `IrcSession.WelcomeOnlyWhileConnecting` | irc/client.go:214-220 | 001 while connecting sets Connected and syncs channels; in any other state it leaves the state alone |
| `IrcSession.HandleMessageState` | irc/client.go:190-249 | a line can only move Connecting to Connected, and touches only state, mask, channels, wire and events |
| `IrcSession.MaskSetOnce` | irc/client.go:231-233 | once user or host is set, no line changes them |
| `IrcSession.MaskFromOwnWhois` | irc/client.go:231-247 | the mask changes only on a 311 reply about the bot's own nick, to that reply's user and host |
| `IrcSession.Handshake` | irc/client.go:270-280 | five frames: NICK, USER, MODE +b, MODE +B, WHOIS |
| `IrcSession.ConnectDialFailed` | irc/client.go:251-266 | a failed dial leaves the client connecting with no Conn |
| `IrcSession.ConnectHandshake` | irc/client.go:257-280 | a successful dial writes exactly the handshake while still connecting |
| `IrcSession.ReadLoopEndsDisconnected` | irc/client.go:283-300 | input ending in EOF leaves the client disconnected with no Conn |
| `IrcSession.ReadLoopKeepsChannelsWithoutLines` | irc/client.go:283-300 | failed reads and the close change neither the channels nor the mask |
| `IrcSession.ReconnectSkipsOldChannels` | irc/client.go:251-301 | after a reconnect, channels that were current are not joined again |
| `IrcSession.ReadLoopKeepsActive` | irc/client.go:283-300 | the read loop never changes whether the client is active, nor its target |
| `IrcSession.InitOnce` | irc/client.go:362-375 | init refuses an active client, changing nothing; otherwise it activates the client and starts one loop; a second init refuses |
| `IrcSession.DeleteStops` | irc/client.go:304-310 | delete clears active and Conn and nothing else; a deleted client ignores ping and sync |
| `IrcSession.ReconnectCases` | irc/client.go:312-323 | on an inactive client reconnect is init; on an active one it only drops Conn |
| `IrcSession.PingPanicRestarts` | irc/client.go:325-360 | a ping on a client flagged to panic clears the flag and drops Conn instead of writing |
| `IrcSession.PingCases` | irc/client.go:349-360 | ping does nothing unless active and connected; otherwise it writes one PING |
| `IrcClient.Client.constructor` | irc/client.go:377-382 | the new object's state is NewSession |
| `IrcClient.Client.CurrentChannels` | irc/client.go:84-88 | returns the current channel list |
| `IrcClient.Client.SetTargetChannels` | irc/client.go:90-94 | replaces the target list and nothing else |
| `IrcClient.Client.Write` | irc/client.go:115-160 | appends the frame to the wire iff Conn is open |
| `IrcClient.Client.SyncChannels` | irc/client.go:96-133 | the new state is SyncSpec of the old one |
| `IrcClient.Client.JoinPass` | irc/client.go:105-119 | appends the joined channels and writes their JOIN frames |
| `IrcClient.Client.PartPass` | irc/client.go:121-132 | compacts the current list in place to the kept channels and writes one PART per dropped channel |
| `IrcClient.Client.WriteBatch` | irc/client.go:145-152 | writes the opening, the tagged bodies and the closing frame |
| `IrcClient.Client.Send` | irc/client.go:154-165 | the new state is SendSpec of the old one |
| `IrcClient.Client.HandleKick` | irc/client.go:167-188 | the new state is KickSpec of the old one |
| `IrcClient.Client.HandleMessage` | irc/client.go:190-249 | the new state is HandleMessageSpec of the old one |
| `IrcClient.Client.Connect` | irc/client.go:251-301 | the new state is ConnectSpec of the old one, for the dial's outcome and the input read |
| `IrcClient.Client.SendHandshake` | irc/client.go:270-280 | writes the five handshake frames |
| `IrcClient.Client.Delete` | irc/client.go:304-310 | the new state is DeleteSpec of the old one |
| `IrcClient.Client.Init` | irc/client.go:362-375 | state and result are InitSpec of the old state |
| `IrcClient.Client.Reconnect` | irc/client.go:312-323 | the new state is ReconnectSpec of the old one |
| `IrcClient.Client.RecoverAndRestart` | irc/client.go:325-333 | the new state is RecoverSpec of the old one |
| `IrcClient.Client.Ping` | irc/client.go:349-360 | the new state is PingSpec of the old one |
| `IrcClient.Client.Loop` | irc/client.go:335-347 | the new state is LoopSpec of the old one, for the connection attempts given |
| `IrcPool.SyncEntry` | irc/pool.go:38-111 | after a sync, every configured name maps to its synced client; unconfigured names stay, bound to nil |
| `IrcPool.SyncActivates` | irc/pool.go:54-64 | every configured name ends with an active client |
| `IrcPool.SyncKeepsTargets` | irc/pool.go:54-66 | sync never changes a client's target channels; new clients have none |
| `IrcPool.SyncNewClient` | irc/pool.go:57-93 | a missing or nil entry becomes a new started client with the configured address, and the address phase leaves it alone |
| `IrcPool.SyncMovesAddress` | irc/pool.go:84-108 | a client with another address takes the configured one; Conn is dropped only if it was connected |
| `IrcPool.NilEntryPanicsNextSync` | irc/pool.go:70-75 | an entry bound to nil by one sync is still there; the next sync that does not configure it calls delete on nil |
| `IrcPool.StateLabel` | irc/pool.go:17-36 | a nil entry panics; nothing else does |
| `IrcPool.StateLabelCases` | irc/pool.go:21-33 | a missing name gives the "not found" label; a client gives its state's label |
| `IrcPool.NotFoundIsNoState` | irc/pool.go:23-33 | the "not found" label differs from every state label |
| `IrcPool.ReportGoesHome` | irc/incident.go:12-34 | no home client, a nil one or an inactive one means nothing is sent; otherwise only the home client sends, to the owner, the incident text |
| `IrcPool.ReportOneLine` | irc/incident.go:31-33 | a one-line incident is a single PRIVMSG to the owner |
| `IrcPool.IncidentOneLine` | irc/incident.go:32 | the incident prefix adds no line break |
| `IrcPool.PingAllOnce` | irc/ping.go:8-15 | every entry is pinged once: inactive or unconnected clients are unchanged, others write one PING |
| `IrcPool.Pool.constructor` | irc/pool.go:12-15 | an empty pool |
| `IrcPool.Pool.GetStateWithFormatting` | irc/pool.go:17-36 | the label of StateLabel over the pool's state |
| `IrcPool.Pool.Sync` | irc/pool.go:38-111 | a store failure is returned with nothing changed; otherwise it panics iff the removal phase reaches a nil entry, and else the pool is SyncedState; deleted clients are stopped |
| `IrcPool.Pool.EnsureConfiguredPass` | irc/pool.go:52-66 | creates or starts every configured client, keeping every other entry |
| `IrcPool.Pool.RemovePass` | irc/pool.go:70-75 | deletes every unconfigured client and binds it to nil, or panics on a nil entry |
| `IrcPool.Pool.AddressPass` | irc/pool.go:84-108 | applies every configured address change |
| `IrcPool.Pool.ReportIncident` | irc/incident.go:12-34 | the new pool state is ReportSpec of the old one |
| `IrcPool.Pool.PingAll` | irc/ping.go:8-15 | panics iff some entry is nil; otherwise every client is pinged once |
| `CmdMenu.CallStackIsJoin` | cmdmenu/runnable.go:16-22 | the call stack is the parents and the name joined by spaces |
| `CmdMenu.CallStackShape` | cmdmenu/runnable.go:16-22 | its length is the parents' lengths plus one each plus the name's; it ends with the name; no parents gives the name |
| `CmdMenu.FirstMatch` | cmdmenu/menu.go:42-48 | -1 iff no child has the name; otherwise the first child that does |
| `CmdMenu.CommandGate` | cmdmenu/command.go:40-46 | the handler runs iff Args is 0 or enough arguments were given, with all of them; otherwise the usage is the call stack, a space and Usage |
| `CmdMenu.MenuPicksFirstMatch` | cmdmenu/menu.go:39-48 | the first child named like the lower-cased first argument runs with the rest, under this menu |
| `CmdMenu.MenuUsage` | cmdmenu/menu.go:49-58 | with no argument or no match, the usage is the call stack, ` <subcommand>`, a line break, two spaces and the child names joined by `, ` |
| `CmdMenu.UpperCaseChildUnreachable` | cmdmenu/menu.go:41-43 | a child whose name has an upper-case letter is never selected |
| `CmdMenu.InvokedArgsAreSuffix` | cmdmenu/menu.go:39-48 | a handler receives a suffix of the arguments, never truncated |
| `CmdMenu.InvokedHasArity` | cmdmenu/command.go:41-42 | a handler whose commands all require n > 0 arguments receives at least n |
| `CmdMenu.Node.SetOrGetParent` | cmdmenu/command.go:32-38 | a non-nil parent is stored and nil returned; nil returns the stored parent, changing nothing |
| `CmdMenu.Node.Run` | cmdmenu/menu.go:39-59 | the outcome is Decide on the node's tree; every child the run descends into gets the menu that chose it as current parent, and no other node's parent changes |
| `Commands.RegistryPermissions` | command/command.go:54-61 | the owner on the home server may run every command; anybody else may run exactly help and info |
| `Commands.SplitSpacesLosesOnlySpaces` | command/command.go:78 | splitting on `\s+` loses exactly the white space |
| `Commands.TokensShape` | command/command.go:78-84 | the token list is never empty (so the empty-list branch cannot run), no token holds white space, and no token after the first is empty |
| `Commands.FindCommand` | command/command.go:88-98 | -1 iff no command has the name; otherwise the first that does |
| `Commands.ChannelNeedsPrefix` | command/command.go:73-76 | a line is ignored iff it is in a channel and does not start with `m/` |
| `Commands.RouteDispatch` | command/command.go:78-108 | unknown iff no registered command has the lower-cased first token as its name; a dispatch runs the first command with that name, which the sender may run, with all tokens; denied iff that first command may not be run by the sender |
| `Commands.UnknownHintRunsHelp` | command/command.go:46-52 | the text the unknown reply tells the user to type (`m/help` in a channel, `help` elsewhere), typed there by anybody, runs help |
| `Commands.UsageReplyShape` | command/cmdmenu.go:9-16 | a usage reply starts with `usage: `; in a channel the usage follows `m/`, elsewhere directly |
| `CommandRun.Recovered` | command/command.go:64-71 | a handler that did not panic is passed through; a panic keeps the earlier effects and appends `command panicked: <value>`; the result never panics |
| `CommandRun.FindRegistered` | command/command.go:88-94 | the search loop returns FindCommand's index |
| `CommandRun.Run` | command/command.go:63-109 | ignored lines get nothing; unknown names the unknown reply; denied senders the refusal and an incident; permitted ones their handler's outcome, recovered; only the server command changes the store |
| `CommandRun.CommandPanicIsAnswered` | command/command.go:64-71 | `test commandpanic` is answered with `command panicked: test panic` only |
| `CommandRun.ListPanicIsAnswered` | command/command.go:64-71 | a server list that hits a server with no client is answered with the nil-dereference panic text only |
| `GeneralHelp.Permitted` | command/generalhelp.go:14-18 | exactly the commands the sender may run are kept |
| `GeneralHelp.PermittedAppend` | command/generalhelp.go:14-18 | the filter keeps order: it splits over concatenation and keeps a single command iff the sender may run it |
| `GeneralHelp.CategoriesOrdered` | command/generalhelp.go:19-21 | categories appear in the order of their first command |
| `GeneralHelp.CategoriesComplete` | command/generalhelp.go:19-21 | every command's category appears |
| `GeneralHelp.CategoriesDistinct` | command/generalhelp.go:19-21 | no category appears twice |
| `GeneralHelp.GroupOfGrouping` | command/generalhelp.go:19-21 | a category's group is its commands in registry order |
| `GeneralHelp.HelpListsOnlyPermitted` | command/generalhelp.go:14-22 | every listed command is registered, may be run, and sits under its own category |
| `GeneralHelp.HelpForOthers` | command/generalhelp.go:14-22 | anybody but the owner at home sees only `general: help, info` |
| `GeneralHelp.HelpForOwnerAtHome` | command/generalhelp.go:14-22 | the owner at home sees general (help, info), then admin (server, test) |
| `GeneralHelp.GroupPermitted` | command/generalhelp.go:12-22 | the loop builds the grouping of the permitted commands |
| `GeneralHelp.WriteSections` | command/generalhelp.go:29-35 | the loop writes the greeting, then each category's header and lines |
| `GeneralHelp.HandleGeneralHelp` | command/generalhelp.go:11-38 | the reply is the trimmed help text |
| `AdminTestCmd.SendOfNBytes` | command/admintest.go:17-32 | the probe for one size is Probe: a raw frame, or a panic when the size is too small |
| `AdminTestCmd.ProbeIsExact` | command/admintest.go:17-31 | when the size fits, the text is the info then dots, and the raw frame is exactly size bytes |
| `AdminTestCmd.ProbeTooSmallPanics` | command/admintest.go:18-25 | a size below the overhead plus the info panics before writing |
| `AdminTestCmd.ProbeTextAscii` | command/admintest.go:18-25 | the probe text is ASCII |
| `AdminTestCmd.MsgsizeSequence` | command/admintest.go:10-47 | for a normal overhead: the intro, raw frames of 200, 300, 400, 500, 512, the notice, then 513, 520, 530 |
| `AdminTestCmd.ProbesAllWritten` | command/admintest.go:34-46 | a run of fitting probes writes one raw frame per size, in order |
| `AdminTestCmd.HandleTestCases` | command/admintest.go:49-77 | under two tokens gives the usage; only clientpanic arms PanicOnNextPing; only commandpanic panics |
| `AdminTestCmd.MsgsizeNeverArms` | command/admintest.go:10-47 | msgsize never arms a client panic |
| `AdminServerCmd.HomeIsProtected` | command/adminserver.go:47-97 | add, remove and set addr on `home` refuse and leave the store alone |
| `AdminServerCmd.AddCases` | command/adminserver.go:47-74 | sync runs iff the name is not home, no server has the address and the name is new; then the record holds just the address; otherwise one reply and no write |
| `AdminServerCmd.RemoveCases` | command/adminserver.go:76-91 | sync runs iff the name is not home and exists; then only that key is removed; otherwise one reply and no write |
| `AdminServerCmd.SetAddrCases` | command/adminserver.go:93-126 | sync runs iff the name is not home, the address is unused and the record reads; only the address changes and the channels are kept; otherwise one reply and no write |
| `AdminServerCmd.AddressesStayUnique` | command/adminserver.go:53-107 | add, remove and set addr keep server addresses distinct |
| `AdminServerCmd.AdminServerAdd` | command/adminserver.go:47-74 | store and effects are AddSpec of the old store |
| `AdminServerCmd.AdminServerRemove` | command/adminserver.go:76-91 | store and effects are RemoveSpec of the old store |
| `AdminServerCmd.AdminServerSetAddr` | command/adminserver.go:93-126 | store and effects are SetAddrSpec of the old store |
| `AdminServerCmd.MarkStyle` | command/adminserver.go:28-32 | a joined channel is white on 43, any other white on 40 |
| `AdminServerCmd.ChannelMarkShowsMembership` | command/adminserver.go:26-33 | a channel gets the background 43 iff the client currently has it joined |
| `AdminServerCmd.MarksShowMembership` | command/adminserver.go:26-33 | each mark reads back as its configured channel, in order; two clients get the same marks iff they agree on every configured channel |
| `AdminServerCmd.ListPanicsOnMissingClient` | command/adminserver.go:22-24 | the list panics iff some listed server has no client |
| `AdminServerCmd.ServerLinesCount` | command/adminserver.go:35-41 | each server takes exactly two lines |
| `AdminServerCmd.ListLineCount` | command/adminserver.go:21-42 | the listing has two lines per server |
| `AdminServerCmd.MarkChannels` | command/adminserver.go:26-33 | the loop computes Marks |
| `AdminServerCmd.ListEntries` | command/adminserver.go:21-44 | the loop over the servers from the back computes the list reply |
| `AdminServerCmd.AdminServerList` | command/adminserver.go:14-45 | a failing GetAll answers "failed to get all: " and the error; otherwise the listing of the entries |
| `AdminServerCmd.BuildServerMenu` | command/adminserver.go:128-159 | the menu is `server {list, add(2), remove(1), set {addr(2)}}` |
| `AdminServerCmd.ServerMenuArity` | command/adminserver.go:135-155 | add and set addr receive at least two arguments, remove at least one |
| `AdminServerCmd.ServerListRoute` | command/adminserver.go:131-134 | `list` runs the list handler |
| `AdminServerCmd.ServerAddRoute` | command/adminserver.go:135-140 | `add` goes to the add command under `server` |
| `AdminServerCmd.ServerAddInvokes` | command/adminserver.go:135-140 | `add` with two arguments runs the add handler with them |
| `AdminServerCmd.ServerRemoveRoute` | command/adminserver.go:141-146 | `remove` goes to the remove command under `server` |
| `AdminServerCmd.ServerRemoveInvokes` | command/adminserver.go:141-146 | `remove` with a name runs the remove handler |
| `AdminServerCmd.RemoveUsage` | command/adminserver.go:141-146 | a bare `remove` prints `server remove <name>` |
| `AdminServerCmd.ServerSetRoute` | command/adminserver.go:147-157 | `set` goes to the set menu under `server` |
| `AdminServerCmd.ServerSetAddrRoute` | command/adminserver.go:147-157 | `set addr` goes to the addr command under `server set` |
| `AdminServerCmd.ServerSetAddrInvokes` | command/adminserver.go:147-157 | `set addr` with two arguments runs the set addr handler |
| `AdminServerCmd.ServerMenuNames` | command/adminserver.go:130-158 | the sub-commands are list, add, remove, set, in that order |
| `AdminServerCmd.ServerMenuUsage` | command/adminserver.go:128-159 | no or an unknown sub-command prints `server <subcommand>` and the four names |
| `AdminServerCmd.HandleAdminServer` | command/adminserver.go:161-163 | the usage reply, or the list, add, remove or set addr handler on the arguments the menu hands on |
| `AdminChannelCmd.Normalize` | command/adminchannel.go:13-16 | the channel gets a leading `#` if it lacks one and is otherwise unchanged |
| `AdminChannelCmd.NormalizeIdempotent` | command/adminchannel.go:13-16 | normalising twice is normalising once; a name with `#` is unchanged |
| `AdminChannelCmd.AddCases` | command/adminchannel.go:12-40 | a failed read answers the error; a present channel answers "already in channel" and writes nothing; otherwise the channel is appended, written, and sync follows |
| `AdminChannelCmd.RemoveCases` | command/adminchannel.go:42-71 | a failed read answers the error; an absent channel answers "not in channel"; otherwise the first occurrence is removed, written, and sync follows |
| `AdminChannelCmd.SyncOnlyAfterWrite` | command/adminchannel.go:31-70 | sync only follows a successful read and a write |
| `AdminChannelCmd.ChannelListsStayDistinct` | command/adminchannel.go:24-60 | add and remove keep a duplicate-free list duplicate-free, and remove takes out exactly that channel |
| `AdminChannelCmd.RemoveUndoesAdd` | command/adminchannel.go:12-71 | removing a channel just added restores the store |
| `AdminChannelCmd.AdminChannelAdd` | command/adminchannel.go:12-40 | store and effects are AddSpec of the old store |
| `AdminChannelCmd.AdminChannelRemove` | command/adminchannel.go:42-71 | store and effects are RemoveSpec of the old store |
| `AdminChannelCmd.BuildChannelMenu` | command/adminchannel.go:78-102 | the menu is `channel {list, add(2), remove(2), sync}` |
| `AdminChannelCmd.ChannelMenuArity` | command/adminchannel.go:85-96 | add and remove receive at least two arguments |
| `AdminChannelCmd.ChannelAddInvokes` | command/adminchannel.go:85-90 | `add` with two arguments runs the add handler |
| `AdminChannelCmd.ChannelRemoveInvokes` | command/adminchannel.go:91-96 | `remove` with two arguments runs the remove handler |
| `AdminChannelCmd.ChannelListAndSyncInvoke` | command/adminchannel.go:81-100 | `list` runs the server list, and `sync` runs the resync |
| `AdminChannelCmd.HandleAdminChannel` | command/adminchannel.go:73-106 | the usage reply; add and remove as their specs; sync resyncs the originating client and replies; list is the server list (`AdminServerCmd.ListAnswer` on the store) and leaves the store alone |

## Left out

- Sockets and timing are not modelled.
  - TLS dialling and buffered reads are inputs: a dial flag and a sequence of read results.
  - The ten-second reconnect pause and the sixty-second ping ticker are not modelled.
  - Writing to a nil `Conn` panics in Go. Here the frame is dropped.
- Concurrency is not modelled: goroutines, `channelsMutex` and `clientsMutex`, and the
  unlocked reads of `active` and `state`. Every operation is atomic. A started goroutine
  is an event, and the message handler it would run is not called.
- The regular expressions are given as their capture groups. Regexp matching itself is
  not modelled.
- The value of `rand.Intn` is a parameter below 1000.
- All `slog` logging is left out.
- The 512-byte warning in `MakePrivmsg` only logs, so it is not modelled.
- Not part of this model:
  - `ircimage/imagecode.go`: floating-point colour maths, PNG decoding and dithering.
  - `GLSLModf`: floating point.
  - `command/image.go`: HTTP fetching and imaging.
  - `main.go` and `db/db.go`: wiring and opening the store.
  - `command/generalinfo.go`: a constant reply, given as `CommandRun.InfoText`.
  - `command/adminchan.go` and `command/testingping.go`: constant replies.
  - `command/testingmsgsize.go`: a stale copy of the msgsize test.
- CBOR encoding and bbolt are abstracted away.
  - An entry is empty, decodable or not decodable.
  - `Put` fails only on a missing bucket. `Delete` fails on a missing bucket or an absent
    key, and `Add` on a missing bucket or a present key.
  - A store that rejects a write for other reasons is not modelled. So the "failed to
    put" and "failed to update" replies appear in the model but no input reaches them.
- `CommandAdminChannel` is defined but not in the registry. `CommandRun.Run` therefore
  never reaches it. `AdminChannelCmd.HandleAdminChannel` models the handler on its own.
- A handler whose Go signature differs between revisions is modelled in its own terms:
  help receives the address and sender, and the test command receives the client's session.
- `ImageMath.GLSLModi` works on unbounded integers. For a fixed-width type every
  intermediate value of the Go code fits the type, and Go defines `MinInt % -1` as 0,
  so the width changes no result.
- `AdminServerCmd.HandleAdminServer`: the usage texts of `add` and `set addr` are not
  stated as literal strings. They follow from `CmdMenu.CommandGate`.
- `Common.ToLower` lowers only the characters whose lower case is ASCII: A-Z, U+0130
  and U+212A. Other non-ASCII capitals are kept. Lowered text is only compared with the
  ASCII names of commands and sub-commands, so no comparison comes out differently.
- `Sync` takes the result of `GetAll` as its argument. `irc.Sync()` inside a command handler
  is the `SyncPool` effect, not a call.
