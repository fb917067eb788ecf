# remotedesk, modelled in Dafny

remotedesk shares a screen over a public relay. A host agent registers with the relay and gets an id
and a PIN; a viewer presents both, the host consents, and the relay joins the two byte streams. Over
that stream runs RFB 3.8 (RFC 6143): the host sends the parts of its screen that changed, the viewer
keeps a copy. This project models that behaviour and proves what the program is for. `dafny verify
dfyconfig.toml` checks all of it.

## The model

**The screen** (`Images`, `Diff`, `DiffFacts`, `DiffSize`, `Bits`, `Pixel`, `Encoding`, `Streams`,
`Server`, `Viewer`, `UpdateSize`). Frames keep their own origin and stride. The tile scan, the pixel encoder and
the message loop are methods with the loops of the source, each proved against a function; lemmas
then say what the functions mean. The main result is `Viewer.Replication`: sending only what changed,
in a format that may change at any time, is as good as sending everything.

**This repository's viewer** (`Protocol`, `Parsing`, `Wire`, `Client`, `Blocks`, `Mirror`, `Sessions`,
`Survival`). The printers and the decoder over a mutable framebuffer array. `Mirror.ClientReplication`,
`Mirror.IncrementalRefinesFull` and `Sessions.SessionEndToEnd` are about this client and this server
together; `Sessions.StreamServed` reads any byte stream as messages, which puts the host's loop, fed
with whatever bytes, under `Viewer.Replication` in `Sessions.AnyViewerEndToEnd`. `Blocks.AbortsWhen` and
`Survival.HostSurvives` say on which streams either side is stopped by the other.

**The handshakes** (`Auth`, `Handshake`, `Endings`, `Agreement`, `Whole`). Each side is a program of
writes and exact-length reads, carried out by methods and, in `Agreement`, interleaved over two byte
channels. `Endings` says what each side alone does with any stream.

**The relay** (`Lockout`, `Broker`, `Registry`, `Consent`, `Replies`, `Causality`, `Alerts`,
`Control`, `Bridging`, `Admission`, `Passage`, `Pending`, `Agents`, `Scenes`, and the objects in `Relay`,
`HostAgent`, `Listener`).
`Broker` is a step system: any number of control channels, host agents and viewers, in which every
block under a lock, every channel operation and every message is one step, and resolving a reply is
two, because the lock is dropped before the send. A step is a change to at most one registration and
one viewer, so each invariant is proved once for each step and once for the application of a change.
`Bridging`, `Admission`, `Pending`, `Agents` and `Alerts` state what holds after every run. `Control`
and `Passage` tie the state and the record to what hosts and viewers did: what a host said decides its
mode and what was heard of it, and the viewer of an open channel has taken every step on the way.
Steps record events in a log that no step reads; the order of the log is the order in which things
happened.

## Assumptions

- The bounds of the screen are stable during a session (internal/rfb/server.go:18-19), and a captured
  image is not changed after it became the previous frame.
- Width and height fit 16 bits, and the size allows at most 65535 rectangles. The second is not taken
  on trust: `DiffSize.CountFieldExact` shows it is exactly what the count field needs.
- Pixel formats are legal in the sense of section 7.4 of RFC 6143: 8, 16 or 32 bits, maxima of the form
  2^k - 1, fields apart and inside the pixel. Formats of 40 bits or more make the encoder index
  past its four-byte buffer; the model keeps that as the outcome `Abort`, and `Survival.HostSurvives`
  says for every byte stream when it is reached. A copy outside the viewer's framebuffer is the same
  outcome there, and `Blocks.AbortsWhen` says for every byte stream when that is reached.
- A write to a channel succeeds, except where a step or a method names its failure, and channels hold
  what is written until it is read. A stream that ends early gives the error of the exact-length read.
- Session ids are drawn fresh, where a statement says so (`FreshRun`). The relay does not check this;
  `Pending.PendingAlwaysExact` says what the pending maps need of the ids, and `Pending.CollisionReached`
  shows a run that breaks them.
- The relay makes a host known before it tells the host so. A viewer can get in between, and then the
  host's own `Connect` fails although it was registered: `Agents.AgentFate` says exactly when,
  `Agents.RegistrationLost` shows such a run.
- The clock does not run backwards. Two readings are taken by an attempt that trips the lockout.
- DES is any function of an 8-byte key and an 8-byte block. A key of 8 bytes is never refused, so the
  two error branches for a refused key cannot be reached. `Auth.PassesOnlySame` and
  `Agreement.WrongPasswordDenied` assume that no block is the same under two keys. DES itself does not
  look at the parity bit of each key byte, which is the highest bit of each password byte, so passwords
  that differ only there are one password to it; `Agreement.WrongAnswerDenied` needs no assumption.
- Where the documentation calls the PIN one-time, the code keeps one PIN for the life of a
  registration, and so does the model.

## Model

| member | source | states |
|---|---|---|
| Diff.TileDiffers | internal/rfb/diff.go:49-59 | The comparison of raw scanlines through two strides and origins returns true if and only if some pixel of the region differs. |
| Diff.AppendRow | internal/rfb/diff.go:23-43 | The scan of one tile row with its mutated run start appends exactly one rectangle for each maximal run of dirty tiles, clipped at the right and lower edge. |
| Diff.DirtyRects | internal/rfb/diff.go:15-45 | The whole scan returns the runs of every tile row from top to bottom, or one full rectangle when the sizes differ. |
| DiffFacts.DirtyExact | internal/rfb/diff.go:12-45 | For frames of one size, whatever their origins and strides, the rectangles are nonempty, in bounds, tile-aligned, pairwise apart and in row-then-column order, and they cover a pixel if and only if its clipped tile holds a differing byte. |
| DiffFacts.DirtyMaximal | internal/rfb/diff.go:26-42 | The tiles just left and right of every rectangle are clean, so no run could be longer. |
| DiffSize.CountBound | internal/rfb/diff.go:22-44 | At most ceil(h/32) * ceil(ceil(w/32)/2) rectangles. |
| DiffSize.CountFieldExact | internal/rfb/server.go:309-313 | The two-byte rectangle count is exact for every pair of frames of a size if and only if that product is at most 65535; a striped pair of frames reaches the bound. |
| DiffSize.DirtyArea | internal/rfb/diff.go:23-43 | The areas of the rectangles add up to the number of pixels in dirty tiles, never more than the screen. |
| Pixel.FormatRoundTrip | internal/rfb/pixel.go:35-64 | Reading back the 16 bytes of any pixel format gives the format. |
| Pixel.PixelRoundTrip | internal/rfb/pixel.go:83-103 | For every legal true-colour format of 8, 16 or 32 bits and either byte order, reading a pixel's bytes back and taking (value >> shift) & max gives exactly c*max/255, rounded down, in each channel. |
| Pixel.Scale | internal/rfb/pixel.go:88-90 | The scaled channel r is the one number with 255*r <= c*max < 255*(r+1). |
| Pixel.PixelBits | internal/rfb/pixel.go:83-103 | For every format, legal or not, each bit of the value written is the bit of a scaled channel shifted to its place within 32 bits, as far as there are bytes for it. |
| Pixel.DefaultLegal | internal/rfb/pixel.go:26-33 | The default format is legal. |
| Pixel.DefaultPixel | internal/rfb/pixel.go:27-33 | In the default format a pixel is the bytes blue, green, red, zero. |
| Encoding.Mul32 | internal/rfb/pixel.go:88-90 | The wrapping 32-bit product of a channel and a maximum never wraps. |
| Encoding.PixelBytes | internal/rfb/pixel.go:93-103 | The four-byte buffer is filled in the format's byte order, byte by byte. |
| Encoding.EncodeRow | internal/rfb/pixel.go:81-104 | Walking one row by the moving offset appends the encoding of each of its pixels, left to right. |
| Encoding.EncodeRectInto | internal/rfb/pixel.go:77-107 | The output is the old buffer followed by the rows of the rectangle, top to bottom. |
| Encoding.RectPosition | internal/rfb/pixel.go:80-104 | Row-major order: the pixel at column i and row j of the rectangle sits at byte j*rowLength + i*bytesPerPixel of the encoding. |
| Encoding.PayloadLength | internal/rfb/pixel.go:80-106 | A rectangle's encoding is exactly width * height * bytesPerPixel bytes. |
| Encoding.HeaderValues | internal/rfb/server.go:317-319 | The 16-bit fields of a rectangle header inside a screen of 16-bit size are written without loss. |
| Server.Session.SendFramebufferUpdate | internal/rfb/server.go:295-329 | Capture, choice of rectangles, header, rectangle loop and the new previous frame, as one function of the state, with the failing capture and the buffer overrun. |
| Server.Session.WriteRects | internal/rfb/server.go:316-326 | The rectangle loop through the reused scratch buffer writes header and pixels of each rectangle in order; it aborts if and only if a pixel is longer than four bytes and some rectangle is nonempty. |
| Server.Session.ReadSetPixelFormat | internal/rfb/server.go:268-273 | Three padding bytes and the 16 bytes of the format, with the error of each short read. |
| Server.Session.ReadSetEncodings | internal/rfb/server.go:275-284 | The count's worth of four-byte encodings is discarded, whatever they are. |
| Server.Session.ReadFBUR | internal/rfb/server.go:286-293 | Nine bytes are consumed and the first decides whether the request is incremental. |
| Server.Session.ReadKeyEvent | internal/rfb/server.go:331-340 | One key event with the big-endian keysym reaches the sink. |
| Server.Session.ReadPointerEvent | internal/rfb/server.go:342-352 | One pointer event with both coordinates and the buttons reaches the sink. |
| Server.Session.ReadClientCutText | internal/rfb/server.go:354-362 | The announced length is discarded. |
| Server.Session.Dispatch | internal/rfb/server.go:226-264 | Each message type is given to its parser, any other ends the loop with an error. |
| Server.Session.Loop | internal/rfb/server.go:215-266 | The loop serves the stream message by message; a clean end between messages is no error, an error ends it. |
| Protocol.ClampNearest | internal/rfbclient/io.go:208-216 | In a nonempty range the result is in the range and no point of the range is nearer. |
| Protocol.ClampEmpty | internal/rfbclient/io.go:208-216 | In an empty range the result is 0 for a negative number and -1 otherwise. |
| Client.Client.SendSetPixelFormat | internal/rfbclient/io.go:12-21 | The literal bytes are the message for the default 32-bit format. |
| Client.Client.SendSetEncodings | internal/rfbclient/io.go:23-30 | The loop appends the wrapped count and every encoding in order. |
| Client.Client.RequestUpdate | internal/rfbclient/io.go:33-44 | The request covers the whole screen. |
| Client.Client.SendPointer | internal/rfbclient/io.go:47-52 | In a nonempty screen the coordinates sent are the nearest point of the screen; in an empty one they wrap. |
| Client.Client.SendKey | internal/rfbclient/io.go:55-63 | The flag and the keysym are printed. |
| Client.Client.Run | internal/rfbclient/io.go:76-112 | The decoding loop is the function Decode on the stream and the framebuffer array; a clean end between messages is no error. |
| Client.Client.ReadFramebufferUpdate | internal/rfbclient/io.go:114-126 | As many rectangles as the count says are read, up to the first error. |
| Client.Client.ReadRectangle | internal/rfbclient/io.go:128-147 | The signed encoding selects raw, copy or an error. |
| Client.Client.DecodeRaw | internal/rfbclient/io.go:150-172 | Row by row the array takes the swizzled pixels, each row read in full first, pixels outside the array skipped. |
| Client.Client.DecodeCopyRect | internal/rfbclient/io.go:175-193 | Snapshot of the source rows, then the destination rows, with an abort when a slice of either is outside the array. |
| Client.Client.Snapshot | internal/rfbclient/io.go:185-188 | The snapshot is the rows of the source region one after the other. |
| Client.Client.PutBack | internal/rfbclient/io.go:189-191 | The array ends with the rows of the snapshot written over the destination. |
| Viewer.RectsRoundTrip | internal/rfb/server.go:316-326 | Any list of rectangles inside the screen is read back as it was written, with what follows left unread. |
| Viewer.UpdateRoundTrip | internal/rfb/server.go:312-326 | Any update of at most 65535 rectangles is read back rectangle by rectangle, and reading stops exactly behind it. |
| Viewer.ChosenCover | internal/rfb/server.go:303-310 | An update carries a pixel if and only if everything is asked for, there is no previous frame, the size has changed, or the pixel's tile has. |
| Viewer.ShownAfter | internal/rfb/server.go:316-326 | After an update every covered pixel shows the capture quantised in the format in force, every other what it showed before. |
| Viewer.OneUpdate | internal/rfb/server.go:295-329 | If the viewer showed the previous capture it reads the next update whole and shows the new capture. |
| Viewer.Replication | internal/rfb/server.go:295-329 | Over every run of captures of one size, full or incremental requests and legal format changes, a viewer decoding with the latest format reads every update to its last byte, and each pixel it shows is the last capture's pixel quantised under the format in force when its tile was last sent. |
| Mirror.RawRowsPaint | internal/rfbclient/io.go:154-170 | Decoding a raw rectangle paints exactly its pixels, opaque and unswizzled, and no other; the bounds guard skips none of them. |
| Mirror.OneMessage | internal/rfbclient/io.go:114-126 | The client consumes exactly one update of the host and then mirrors the new capture. |
| Mirror.ClientReplication | internal/rfbclient/io.go:76-172 | Over every run of full or incremental requests, the first included, this client decodes the host's whole output without error, counts one update for each request and ends with the last capture in its framebuffer. |
| Mirror.IncrementalRefinesFull | internal/rfb/server.go:303-327 | Two runs over the same captures leave byte-identical framebuffers whichever requests were incremental; every run equals the one that always sends the whole screen. |
| Mirror.CopyIsSimultaneous | internal/rfbclient/io.go:174-193 | For source and destination inside the framebuffer, overlapping or not, every destination pixel becomes the old source pixel and all others stay. |
| Blocks.BlockFitsWhen | internal/rfbclient/io.go:185-191 | The slices of a block of a w0 by h0 screen are all inside the array if and only if the block is empty or (y+h-1)*w0 + x + w <= w0*h0; a block may stick out to the right above the last row. |
| Blocks.AbortsWhen | internal/rfbclient/io.go:76-193 | On every server stream the decoder aborts if and only if some copy in it has a source or a destination that does not fit; otherwise it ends where the stream does and with what ends it, having counted the completed updates. Which copies there are does not depend on any pixel. |
| Blocks.RawPaintsByte | internal/rfbclient/io.go:154-170 | For a raw rectangle anywhere, inside the screen or not, each byte of the framebuffer becomes that of the last row of the rectangle covering it, counted on across the right edge. |
| Blocks.RawMisses | internal/rfbclient/io.go:154-170 | A byte that no row covers stays. |
| Blocks.CopyMovesByte | internal/rfbclient/io.go:174-193 | For every copy that fits, inside the screen or sticking out to the right, each byte of the framebuffer becomes what the source held before the copy in the place of the last row of the destination covering it. |
| Blocks.CopyLeavesByte | internal/rfbclient/io.go:174-193 | A byte that no row of the destination covers stays. |
| UpdateSize.UpdateLength | internal/rfb/server.go:303-326 | An update is 4 bytes, 12 for each rectangle, and bytesPerPixel for each pixel carried; an incremental one never carries more pixels than a full one, whether or not the size has changed. |
| Sessions.MessageRoundTrip | internal/rfb/server.go:226-264 | Whatever follows, each printed message is parsed to its effect and not a byte further. |
| Parsing.ParsePrinted | internal/rfb/server.go:268-362 | Every sequence of messages whose lists and texts fit their counts is read back from its bytes as it was, to the last byte. |
| Wire.KeyBytes | internal/rfb/server.go:331-340 | For any byte values the eight bytes of a key message tell the sink one key event, down for any flag but zero. |
| Wire.PointerBytes | internal/rfb/server.go:342-352 | The six bytes of a pointer message tell it one pointer event, the buttons first on the wire. |
| Wire.RequestBytes | internal/rfb/server.go:286-293 | The ten bytes of an update request are answered incrementally for any flag but zero, whatever region they name. |
| Wire.FormatBytes | internal/rfb/pixel.go:48-64 | The twenty bytes of a format message set every field from its own place, red before green before blue. |
| Wire.EncodingBytes | internal/rfb/server.go:275-284 | A list of encodings is passed over, four bytes each. |
| Wire.TextBytes | internal/rfb/server.go:354-362 | A text is passed over, byte by byte. |
| Wire.PrintedFormat | internal/rfbclient/io.go:12-21 | The twenty bytes printed for a format, each in its place. |
| Wire.PrintedInput | internal/rfbclient/io.go:47-63 | The bytes printed for pointer and key messages, each in its place. |
| Wire.PrintedRequest | internal/rfbclient/io.go:33-44 | The ten bytes printed for a request, each in its place. |
| Wire.OwnEncodingsDecoded | internal/rfbclient/client.go:120-133 | The decoder refuses an encoding if and only if it is not among those this viewer asks for. |
| Sessions.StreamServed | internal/rfb/server.go:215-362 | For every byte stream whatever the host's loop has exactly the effects of the messages in it, in order and up to the first failure, and otherwise ends where the stream's messages do and with what ends them: a clean end, a short read or an unknown type. |
| Sessions.StreamRoundTrip | internal/rfb/server.go:215-266 | For every sequence of messages the host's loop on their concatenated bytes has exactly their effects in order and consumes every byte, or stops at the first failing capture or overrun. |
| Sessions.EncodingsFit | internal/rfbclient/io.go:23-30 | The host stops exactly behind a SetEncodings message if and only if its list is shorter than 65536; a longer one is cut short by its count. |
| Sessions.HostServes | internal/rfb/server.go:215-352 | For every byte stream with legal formats and enough captures the host's loop ends where and as the stream does, its output is the answer to each request in the format asked for last, and the sink is told exactly the stream's key and pointer events, in order. |
| Sessions.AnyViewerEndToEnd | internal/rfb/server.go:215-362 | End to end with any viewer: whatever bytes it sends, if the formats they ask for are legal, the viewer, decoding with the latest format, reads the host's output to the last byte and shows the last capture, each pixel quantised under the format in force when its tile was last sent. |
| Survival.HostSurvives | internal/rfb/server.go:215-362 | On every byte stream the host ends where and as the stream does if and only if every capture asked for succeeds and each request finds a format of fewer than 40 bits in force or no pixel to send; otherwise it ends earlier with the failed capture or the overrun. |
| Survival.WideFormatOverruns | internal/rfb/pixel.go:93-103 | A format of 40 bits followed by one request makes the host overrun, for every nonempty screen. |
| Survival.OverrunsWhen | internal/rfb/pixel.go:93-103 | An update overruns the four-byte buffer if and only if its format has 40 bits or more and it carries a pixel. |
| Sessions.SessionEndToEnd | internal/rfb/server.go:215-266 | Whatever this client sends after the handshake, the host serves it all and tells the sink exactly its key and pointer events in order, and the client fed with the host's output ends with the host's last capture, one update for each request. |
| Sessions.HostPointsInside | internal/rfbclient/io.go:46-52 | Wherever the user of this client points, every pointer event the host's sink is told lies inside the screen, when that is not empty. |
| Auth.ReverseBits | internal/rfb/auth.go:37-44 | The shift loop puts the eight bits of a byte in the opposite order. |
| Auth.Reversed | internal/rfbclient/auth.go:23-30 | Bit i of the result is bit 7-i of the argument. |
| Auth.ReverseTwice | internal/rfb/auth.go:37-44 | Reversing twice changes nothing. |
| Auth.SameKey | internal/rfb/auth.go:12-16 | Two passwords give the same key if and only if they agree when cut or filled up to eight bytes. |
| Auth.VncAuthResponse | internal/rfb/auth.go:11-25 | The key array rewritten in place and the two blocks filled in give sixteen bytes: each half of the challenge encrypted under the bit-reversed, zero-padded password; the client's copy at internal/rfbclient/auth.go:9-21 computes the same. |
| Auth.CheckVncAuth | internal/rfb/auth.go:29-35 | Accepts if and only if the answer is sixteen bytes and each half is that half of the challenge encrypted under the password's key. |
| Auth.SamePasswordPasses | internal/rfbclient/auth.go:9-21 | Passwords equal on eight bytes give equal responses to every challenge. |
| Auth.PassesOnlySame | internal/rfb/auth.go:11-35 | Under a cipher that tells keys apart, an answer under one password passes for another if and only if the two agree on eight bytes, zero-padded. |
| Handshake.HostSide.Handshake | internal/rfb/server.go:101-147 | The host's handshake, on any stream, writes and reads what its program says and ends with its error. |
| Handshake.HostSide.SecurityNone | internal/rfb/server.go:149-161 | Without a password the choice is read and not looked at, and success is sent. |
| Handshake.HostSide.SecurityVncAuth | internal/rfb/server.go:163-197 | Unsupported choices end it, a wrong response is answered with result 1 and the reason and ends it, a right one with result 0. |
| Handshake.HostSide.SendSecurityResult | internal/rfb/server.go:199-213 | Zero, or one with the length and the text of the reason. |
| Handshake.ViewerSide.Handshake | internal/rfbclient/client.go:63-133 | The viewer's handshake, on any stream, writes and reads what its program says, sets the size and ends with its error; when it succeeds the framebuffer is new, blank and of the size learned. |
| Handshake.ViewerSide.DoSecurity | internal/rfbclient/client.go:135-176 | No authentication is preferred, VNC authentication answered, anything else refused. |
| Handshake.ViewerSide.ReadString | internal/rfbclient/client.go:179-187 | Consumes a length and that many bytes and returns them; empty without a whole length, filled up with zeros when the stream ends too early. |
| Handshake.StringFilled | internal/rfbclient/client.go:179-187 | The string read is empty without a whole length and otherwise of that length, its bytes those of the stream and zero where the stream has ended. |
| Endings.HostLetsIn | internal/rfb/server.go:101-197 | On every stream a host with a password lets the peer in if and only if there are 30 bytes, byte 12 chooses VNC authentication and the next sixteen are the two encrypted blocks; any other choice ends it with only the version and the offer written. Without a password 14 bytes let anybody in. |
| Endings.GuardedHostRuns | internal/rfb/server.go:101-213 | With a password, for every stream: where reading stops, everything written and the error, in plain bytes. |
| Endings.OpenHostRuns | internal/rfb/server.go:101-161 | The same without a password. |
| Endings.ViewerEnds | internal/rfbclient/client.go:63-187 | For every stream the viewer's reads, writes, size and error in plain bytes: no authentication before VNC authentication wherever it stands in the list, the answer under the password, and a name cut short is no error. |
| Endings.Texts | internal/rfb/server.go:101-213 | The version and the reason of a refusal, letter by letter. |
| Agreement.MoveInStep | internal/rfb/server.go:101-213 | What each side will still read stays equal to what is under way and what the other will still write, after every move of either. |
| Agreement.NeverStuck | internal/rfbclient/client.go:63-133 | In no state in step do both sides wait for bytes. |
| Agreement.HandshakesAgree | internal/rfb/server.go:101-213 | Under every schedule the handshakes take at most 25 moves and can go on until both have ended: with the same size and only the viewer's format and encodings under way when no password is set or the responses match, otherwise with both sides failed and nothing under way. |
| Agreement.SamePasswordAgrees | internal/rfbclient/client.go:63-176 | A password equal to the host's on eight bytes, zero-padded, is never denied. |
| Agreement.WrongAnswerDenied | internal/rfb/server.go:192-196 | On a host with a password every finished schedule with a viewer whose answer differs in either block ends in denial. |
| Agreement.WrongPasswordDenied | internal/rfb/server.go:192-196 | Under a cipher that tells keys apart, so does every one with a viewer whose password differs on eight bytes, zero-padded. |
| Whole.ConversationFaithful | internal/rfb/server.go:82-86 | After handshakes that succeeded, on the bytes they leave, the host serves whatever the viewer sends and the viewer ends with the last capture at the size it learned. |
| Lockout.Conservation | internal/relay/relay.go:317-335 | Whatever is attempted, the failure counter stays below the limit; over a stretch without success the wrong PINs compared, with the failures carried in, are max for each lockout plus the failures left over. |
| Lockout.WrongRun | internal/relay/relay.go:328-333 | A run of wrong PINs is compared to its end and trips the lockout exactly when it fills the count. |
| Lockout.SuccessClears | internal/relay/relay.go:324-333 | The right PIN clears the count: after it max wrong PINs, no fewer, trip the lockout. |
| Lockout.LockedUntil | internal/relay/relay.go:321-327 | Before the end of a lockout every attempt is refused and nothing changes; the first attempt at or after it passes if and only if its PIN is right. |
| Lockout.TripLocks | internal/relay/relay.go:317-335 | The wrong PIN that fills the count is answered as locked and locks the host until one lockout after the second clock reading: every attempt before that is refused without a new alert, and the first one at or after it passes if and only if its PIN is right. |
| Lockout.Answers | internal/relay/relay.go:317-335 | Which attempts pass, which are told of a bad PIN, and which alert the host. |
| Lockout.RateBound | internal/relay/relay.go:317-335 | With a clock that does not run backwards, in any stretch of length T without a correct PIN at most max * (T/lockout + 1) wrong PINs are compared. |
| Lockout.RateBoundTight | internal/relay/relay.go:317-335 | For every limit, lockout and length some run reaches that number. |
| Alerts.GateFollowsAttempts | internal/relay/relay.go:317-335 | Over any run of the relay each host's lockout is in the state its own attempts lead to, those are in clock order, and the lockouts on record are those they trip. |
| Alerts.RateBoundInEveryRun | internal/relay/relay.go:317-368 | The rate bound for one host holds however viewers, hosts and control loops are interleaved. |
| Bridging.AlertsMatchTrips | internal/relay/relay.go:351-363 | In every reachable state the counter is below the limit and each attempt that tripped a lockout has attempted one alert, or is about to. |
| Bridging.RegistryAgreement | internal/relay/relay.go:247-302 | In every reachable state the map holds exactly the control loops registered and not ended, each under its own id. |
| Bridging.IdentityForGood | internal/relay/relay.go:254-270 | Whatever runs next, repeated Register messages included, a registered host keeps id, PIN and mode. |
| Pending.PendingAlwaysExact | internal/relay/relay.go:369-410 | Over every run the pending maps hold exactly the sessions whose viewer is inside awaitConsent, in every state, if and only if no id is drawn for an attended host while it is pending there, which the relay does not check. |
| Pending.PendingInEveryRun | internal/relay/relay.go:402-410 | In every state of such a run an entry is pending at a host if and only if its viewer waits there with that session, with its own channel. |
| Pending.FreshRunIsFree | internal/relay/relay.go:369-369 | Ids that are never drawn twice are more than enough. |
| Pending.CollisionReached | internal/relay/relay.go:369-405 | A run in which two viewers of one host draw the same id and the second takes over the entry of the first, which still waits. |
| Agents.AgentFate | internal/relay/relay.go:259-266 | The host is made known before Registered is sent: over every run an agent that has read anything serves if the first message sent down to it was Registered, and gives up if a viewer's Incoming or Alert came first. |
| Agents.RegistrationLost | internal/tunnel/host.go:96-104 | A run with fresh ids in which a registered host is lost because Incoming overtook Registered and Connect failed. |
| Bridging.FirstReplyWins | internal/relay/relay.go:415-439 | With fresh session ids, a viewer is granted consent by an attended host only if the first reply that found its session was Accept, and what waits in its channel is that first reply. |
| Bridging.RepliesReachTheirOwn | internal/relay/relay.go:429-439 | A reply being looked up or delivered changes no viewer but the one whose channel was looked up, and a viewer still waiting receives only the first reply to its own session. |
| Admission.OpenedOnMatchedHost | internal/relay/relay.go:339-384 | In every run, session ids repeated or not, a data channel is opened only on the registration whose id and PIN, drawn by its own control loop, the viewer arrived with, after that registration admitted it and, unless the first Register its host sent asked to be unattended, after an Accept for its session was read there and looked up to this very viewer. |
| Admission.ReplyTouchesOne | internal/relay/relay.go:429-439 | In every run a reply being looked up or delivered changes no viewer but the one whose channel was looked up, and what a viewer in a session receives is a reply read by its own host after it was admitted there. |
| Bridging.OpenedAfterFirstReply | internal/relay/relay.go:339-384 | With fresh session ids the reply behind a data channel, unless the host's first Register asked to be unattended, is the first one that found its session's entry. |
| Bridging.ConsentBeforeBridge | internal/tunnel/host.go:118-130 | When the host runs Connect and Serve and was started attended, Incoming was sent and then Accept heard for the session before its data channel was opened, and no Reject is ever heard for it. |
| Control.LoopFollowsHost | internal/relay/relay.go:247-275 | In every run each control loop has read the first n messages its host sent, in order, and the others are under way: it has registered if and only if there was a Register among the n, with the flag of the first, and the replies on record are the Accepts and Rejects among the n, in order and as they were said. |
| Control.RegisteredMode | internal/relay/relay.go:254-261 | In every run a registered host is unattended if and only if the first Register its host put into the channel said so. |
| Control.AgentMode | internal/tunnel/host.go:92-98 | A host that runs Connect and Serve asks for the mode it was started with, and nothing else opens its channel. |
| Control.NamesFromLabels | internal/relay/relay.go:277-290 | In every run the id and PIN of a registration were drawn together by its own control loop, and a viewer's are those it arrived with. |
| Agents.GreetedOnce | internal/relay/relay.go:254-266 | In every run what is sent down to a host arrives in order, with at most one Registered, which carries the registration's own id and PIN in their places. |
| Passage.NoStepSkipped | internal/relay/relay.go:339-421 | Over every run the viewer of an opened data channel arrived, was looked up, had its PIN checked and drew its session, then, unless the host's first Register asked to be unattended, was announced, received an answer and left the pending map, then was accepted and bridged, each once and in this order. |
| Passage.ConsentDecides | internal/relay/relay.go:398-440 | From any state with an idle attended agent, a viewer admitted there is announced and answered, and its data channel is opened if the agent consents; it is turned away if not. |
| Passage.AnswerDecides | internal/relay/relay.go:374-421 | A waiting viewer that receives Accept leaves the pending map and is bridged; one that receives Reject is turned away. |
| Passage.UnattendedLetsIn | internal/relay/relay.go:399-401 | An admitted viewer of an unattended host is bridged without anything being sent to the host. |
| Passage.SilenceTurnsAway | internal/relay/relay.go:415-420 | A viewer that receives nothing before the timeout is turned away. |
| Passage.LeavingStrands | internal/relay/relay.go:403-440 | A viewer that leaves deletes the entry under its session id even if another viewer waits there with the same id; the next answer to that id then reaches nobody. |
| Bridging.ExchangeConserved | internal/tunnel/host.go:111-139 | While an agent serves, each Incoming sent to it for a session is under way, has its one reply under way or has had it heard, and there is at most one. |
| Consent.CollisionExact | internal/relay/relay.go:369-405 | Whenever the pending maps are exact, starting a session keeps them so if and only if its host is unattended or the id is not already pending there. |
| Relay.HostReg.Authenticate | internal/relay/relay.go:317-335 | The method on the mutable fields is the lockout function of the two clock readings and the comparison. |
| Relay.HostReg.AwaitConsent | internal/relay/relay.go:398-421 | An unattended host consents at once; an attended one is asked once and consents if and only if Accept is the reply offered before the timeout; the pending entry is gone in every case. |
| Relay.HostReg.Resolve | internal/relay/relay.go:429-440 | The reply enters the channel pending under its session if there is room; no other channel changes. |
| Relay.Server.constructor | internal/relay/relay.go:106-132 | Options that are not positive fall back to 5 attempts, 30 seconds of lockout, 15 seconds for a handshake and 512 connections, others are taken as they are, so all four are positive. |
| Relay.Server.Register | internal/relay/relay.go:277-290 | The first candidate id not in the map is taken and the entry added; entries stay stored under their own ids. |
| Relay.Server.ServeControl | internal/relay/relay.go:247-275 | From first to last message the control loop registers once with the first Register's flag, answers it once, gives every pending channel its first reply, and leaves the map as it found it. |
| HostAgent.Host.Connect | internal/tunnel/host.go:92-106 | Register is sent once and the next message must be Registered, whose id and PIN are taken; each failure leaves id and PIN alone. |
| HostAgent.Host.Serve | internal/tunnel/host.go:111-139 | Everything written are the replies to the messages read, in order, until reading ends or a reply cannot be sent; every alert is counted. |
| HostAgent.OneReplyEach | internal/tunnel/host.go:118-130 | Exactly one reply for each Incoming, in order and for its session, accepting if and only if nobody is asked or consent is given. |
| HostAgent.AgentServes | internal/tunnel/host.go:111-139 | The agent of the step system, message by message, writes what Serve writes. |
| Listener.Acceptor.Serve | internal/relay/relay.go:137-174 | The loop over arrivals, failures and finished handlers keeps the slots and the connections dropped as its specification says until the listener is closed, and sleeps min(5 * 2^k, 1000) ms at each failure, k counting those since the last success. |
| Listener.StreakDelay | internal/relay/relay.go:147-159 | After a success, or at the start, and then k failures with no success among them, the next failure is followed by exactly one more delay of min(5 * 2^k, 1000) ms. |
| Listener.HeldUntilFinished | internal/relay/relay.go:163-169 | In every run a connection holds a slot if and only if there was a free one when it arrived and its handler has not returned since. |
| Listener.SlotsConserved | internal/relay/relay.go:161-173 | In every run the connections accepted are those holding a slot, released and dropped, each in one of these, and never more than the cap hold a slot. |
| Listener.DroppedWhenFull | internal/relay/relay.go:163-172 | A connection is dropped if and only if it arrives while every slot is held. |
| Listener.NextBackoff | internal/relay/relay.go:147-154 | Doubling from 5 ms with a cap of one second gives min(5 * 2^(k-1), 1000) ms after k failures. |

## Left out

- Viewer.Replication: a format change is an event of the run here, not a message on the wire; `Sessions.AnyViewerEndToEnd` states the same of any bytes a viewer sends and the host reads.
- Handshake.HostSide.Handshake: write errors and flushing are not modelled, because every write of the source is flushed before the next read; the server object's reader and writer are fields of a class of their own here, apart from `Server.Session`.
- Handshake.ViewerSide.Handshake: as for the host, and the connection is not closed in `Agreement.Run`; there the point is that no side ever waits for bytes that do not come.
- HostAgent.Host.Connect: dialling, the SSH handshake and opening the control channel are not modelled, only the exchange of messages.
- Relay.Server.ServeControl: the method covers one control loop with nothing else running; interleavings are the subject of `Broker`.
- Relay.HostReg.AwaitConsent: the method covers one viewer's wait with nothing else running; interleavings are the subject of `Broker`.
- Relay.Server.Register: the source draws ids until one is free; the method requires that the drawn ids contain a free one, without which the loop does not end.
- Listener.Acceptor.Serve: sleeping and the handlers themselves are not modelled, only the delays and the order of arrivals, failures and returns.
- Auth.VncAuthResponse: the host's and the client's copy are the same text, so one method stands for both; the parity bits DES ignores are not modelled.
- SSH, TCP, JSON and buffered I/O are libraries: a channel is a sequence of bytes or messages. Malformed JSON and unknown channel types end in a refusal before anything modelled here.
- Splicing streams, port forwarding and dialling are plumbing around copying bytes.
- Random generation of ids, PINs and challenges is nondeterministic choice.
- Screen capture, input injection, the windowed viewer, the tray and the keysym tables are foreign calls or finite lookups; captures and sink events are parameters.
- The frame-rate sleep, log output and deadlines are left out; the 60-second wait for consent is a step that may happen at any time while a viewer waits.
- Liveness of consent: the host's callback blocks its loop, so only safety is proved there.
- Resizing during a session: the client's buffer is fixed at the handshake.
- The viewer's snapshot of its framebuffer for drawing is a plain copy.
- Authorised keys, configuration, key files, command lines and deployment are set-up.
