# cloud-storage, modelled in Dafny

cloud-storage is a Java client and server for keeping files on a remote
machine, built on Netty. A client reads command lines from its user
(`ping`, `time`, `signUp`, `signIn`, `signOut`, `upload`, `download`,
`move`, `help`, `exit`). It turns each line into a request payload, sends
it, and shows what the server answers. The server keeps accounts,
sessions, sign-in attempt counters and bans in its FileManager. It gives
each user a folder under its root, and confines uploads to that folder.

On the wire a message is a packet: a four-byte big-endian payload length,
then the payload. A payload is a one-byte command tag followed by the
command's body. The bodies are records: UserData, TimeData and
SignInResponse.

The model has one module per part of the system:

- `Bytes`, `JStrings`, `Cursor`, `Paths`: the Java and Netty primitives the
  code relies on. These are big-endian ints and longs, `String.length()`
  against `getBytes()`, `strip`/`split("\\s+")`/`toUpperCase`, a
  `ByteBuffer` read position, and `java.nio.file.Path` parsing,
  normalisation, `startsWith`, `resolve` and `relativize`.
- `Commands`, `Frames`, `FrameDecoder`, `UserDataCodec`, `TimeDataCodec`,
  `SignInResponseCodec`: the wire format, both encoding and decoding.
  Decoding has two layers: the replaying packet decoder (a class whose
  field is the buffered input) and the payload decoder.
- `Auth`, `EarlyFileManager`, `ServerFileManager`: the account
  bookkeeping both FileManager revisions share, and each revision as a
  class whose methods are proved to follow functions on its fields.
- `ServerHandlers`: the server's request dispatch and per-command handlers.
- `ClientCommands`, `ClientDownload`, `ClientRouting`, `ClientLoop`: the
  client's command handlers and the DOWNLOAD handler's save path (a
  class). They also cover the outbound and inbound handler tables, and
  the ClientHandler loop (a class holding the working directory, the
  waiting command handler, the scheduled read and the channel).
- `Exchange`: client and server together. What one side sends, the other
  side reads back.

The environment is passed in as parameters:
- the clock;
- the local and server disks, and whether a write fails;
- the user's home directory;
- whether a user folder can be made;
- the answers of the server's `downloadFile` and `moveFile`, whose code is
  not part of this model.

## Model

| member | source | states |
|---|---|---|
| Bytes.IntBytes | data/src/main/java/cloud/storage/data/UserData.java:30 | putInt writes exactly four bytes for any Java int |
| Bytes.ReadInt | data/src/main/java/cloud/storage/data/UserData.java:42 | getInt on four bytes always yields a value in the Java int range |
| Bytes.LongBytes | data/src/main/java/cloud/storage/data/TimeData.java:35 | putLong writes exactly eight bytes for any Java long |
| Bytes.ReadLong | data/src/main/java/cloud/storage/data/TimeData.java:39 | getLong on eight bytes always yields a value in the Java long range |
| Bytes.IntRoundTrip | data/src/main/java/cloud/storage/data/UserData.java:30-42 | getInt after putInt gives back the int written, whatever bytes follow |
| Bytes.LongRoundTrip | data/src/main/java/cloud/storage/data/TimeData.java:35-39 | getLong after putLong gives back the long written, whatever bytes follow |
| Bytes.LongBytesOfRead | data/src/main/java/cloud/storage/data/TimeData.java:35-39 | every eight-byte string is the putLong image of the long it reads as, so the long encoding is a bijection |
| Bytes.ReadIntPrefix | nio/src/main/java/cloud/storage/nio/ReplayingPacketDecoder.java:17 | readInt looks only at the first four bytes of the buffer |
| Bytes.ReadIntNegative | nio/src/main/java/cloud/storage/nio/ReplayingPacketDecoder.java:17-18 | four bytes read as a negative int exactly when the first byte's top bit is set, which is when a length field is negative |
| Bytes.UnsignedRoundTrip | data/src/main/java/cloud/storage/data/Packet.java:32 | reading back an n-byte big-endian representation gives the value written |
| Bytes.UnsignedBytesOfValue | data/src/main/java/cloud/storage/data/Packet.java:32 | every byte string is the big-endian representation of its value |
| Bytes.SignedRoundTrip | data/src/main/java/cloud/storage/data/Packet.java:32 | two's complement encoding followed by decoding is the identity on the representable range |
| JStrings.Length | data/src/main/java/cloud/storage/data/UserData.java:30 | String.length() counts UTF-16 units: between one and two per character |
| JStrings.GetBytes | data/src/main/java/cloud/storage/data/UserData.java:30 | getBytes() yields at least length() bytes |
| JStrings.CharBytes | data/src/main/java/cloud/storage/data/UserData.java:30 | one character takes one UTF-8 byte exactly when it is ASCII, four outside the basic plane |
| JStrings.NewString | data/src/main/java/cloud/storage/data/UserData.java:45 | new String(bytes) gives one character per byte for the bytes modelled |
| JStrings.AsciiRoundTrip | data/src/main/java/cloud/storage/data/UserData.java:30-45 | for ASCII text, length(), the character count and the byte count agree, and new String(getBytes()) gives the text back |
| JStrings.AsciiDecode | data/src/main/java/cloud/storage/data/UserData.java:41-45 | for ASCII text, decoding the bytes written gives the text back |
| JStrings.NonAsciiLonger | data/src/main/java/cloud/storage/data/UserData.java:30 | a string with a non-ASCII character has more bytes than length() |
| JStrings.Strip | client/src/main/java/cloud/storage/client/ClientHandler.java:109 | strip() leaves neither leading nor trailing white space |
| JStrings.StripLeading | client/src/main/java/cloud/storage/client/ClientHandler.java:109 | the leading white space is removed and the result is a suffix of the input |
| JStrings.StripTrailing | client/src/main/java/cloud/storage/client/ClientHandler.java:109 | the trailing white space is removed and the result is a prefix of the input |
| JStrings.Tokens | client/src/main/java/cloud/storage/client/ClientHandler.java:109 | the words between runs of white space are never empty |
| JStrings.TakeWord | client/src/main/java/cloud/storage/client/ClientHandler.java:109 | a word is the longest prefix with no white space |
| JStrings.WordsNonEmpty | client/src/main/java/cloud/storage/client/ClientHandler.java:109-110 | strip().split("\\s+") always yields at least one word, and the first is empty exactly for a blank line, so the size < 1 branch is dead |
| JStrings.ToUpperCase | data/src/main/java/cloud/storage/data/Cmd.java:59 | toUpperCase keeps the length and maps each character by its upper case |
| JStrings.RemoveUnderscoresClean | data/src/main/java/cloud/storage/data/Cmd.java:61 | joining the pieces of split("_") leaves no underscore |
| JStrings.RemoveUnderscoresJoin | data/src/main/java/cloud/storage/data/Cmd.java:61 | removing the one underscore of a_b joins the two halves |
| Cursor.ParseByte | data/src/main/java/cloud/storage/data/Cmd.java:47-49 | reading one byte succeeds exactly when a byte remains, and consumes exactly it |
| Cursor.ParseInt | data/src/main/java/cloud/storage/data/UserData.java:42 | getInt succeeds exactly when four bytes remain, reads them as an int and consumes them, and underflows otherwise |
| Cursor.ParseLong | data/src/main/java/cloud/storage/data/TimeData.java:39 | getLong succeeds exactly when eight bytes remain and consumes them; fewer is a BufferUnderflowException |
| Cursor.ParseBytes | data/src/main/java/cloud/storage/data/UserData.java:43-44 | reading into new byte[n] fails on a negative n, underflows when fewer than n bytes remain, and otherwise takes exactly n bytes |
| Cursor.ParseString | data/src/main/java/cloud/storage/data/UserData.java:41-46 | a string field is read exactly when four bytes remain and their int n satisfies 0 <= n <= the bytes left after them; then n bytes are decoded as a String and reading stops right after; a short header or field is an underflow, a negative length NegativeArraySizeException |
| Cursor.ParseIntBytes | data/src/main/java/cloud/storage/data/UserData.java:30-42 | getInt after putInt reads the int and leaves the buffer just after it |
| Cursor.ParseBytesPrefix | data/src/main/java/cloud/storage/data/UserData.java:43-44 | reading as many bytes as b holds from b followed by more bytes reads exactly b |
| Cursor.ByteCursor.Wrap | data/src/main/java/cloud/storage/data/UserData.java:35 | ByteBuffer.wrap starts at position 0 with every byte remaining |
| Cursor.ByteCursor.HasRemaining | data/src/main/java/cloud/storage/data/SignInResponse.java:69 | hasRemaining holds exactly when bytes remain |
| Cursor.ByteCursor.Get | data/src/main/java/cloud/storage/data/SignInResponse.java:63 | get() returns and consumes one byte, as ParseByte says; an underflow leaves the position unchanged |
| Cursor.ByteCursor.GetInt | data/src/main/java/cloud/storage/data/UserData.java:42 | getInt advances the position exactly as ParseInt says |
| Cursor.ByteCursor.GetBytes | data/src/main/java/cloud/storage/data/UserData.java:43-44 | get(new byte[n]) advances the position exactly as ParseBytes says |
| Cursor.ByteCursor.GetAll | nio/src/main/java/cloud/storage/nio/PayloadDecoder.java:19-21 | reading every readable byte returns them all and leaves none |
| Cursor.ByteCursor.GetString | data/src/main/java/cloud/storage/data/UserData.java:41-46 | stringFromBytes reads the field ParseString describes |
| Commands.GetBytes | data/src/main/java/cloud/storage/data/Cmd.java:37-45 | getBytes has exactly getByteLength() == 1 bytes |
| Commands.Name | data/src/main/java/cloud/storage/data/Cmd.java:13-28 | every constant name is non-empty and made of upper-case letters and underscores |
| Commands.FindByTag | data/src/main/java/cloud/storage/data/Cmd.java:50-55 | the loop returns the first listed command with the tag, or "Unknown cmd" when none has it |
| Commands.CmdOfTag | data/src/main/java/cloud/storage/data/Cmd.java:47-56 | readCmd returns a command carrying the byte read as its tag, and throws "Unknown cmd" only when no command has that tag |
| Commands.ValuesComplete | data/src/main/java/cloud/storage/data/Cmd.java:12-28 | values() lists every command |
| Commands.TagsDistinct | data/src/main/java/cloud/storage/data/Cmd.java:13-28 | no two commands share a tag |
| Commands.TagDecodes | data/src/main/java/cloud/storage/data/Cmd.java:47-56 | looking up a command's own tag finds that command |
| Commands.TagsAreSmall | data/src/main/java/cloud/storage/data/Cmd.java:13-28 | exactly the bytes 0 to 8 are tags |
| Commands.TagRoundTrip | data/src/main/java/cloud/storage/data/Cmd.java:47-56 | readCmd(getBytes(c)) == c, readCmd succeeds exactly on 0..8, and every other byte is the "Unknown cmd" exception |
| Commands.ParseCmd | data/src/main/java/cloud/storage/data/Cmd.java:47-56 | readCmd consumes exactly one byte; an empty buffer underflows |
| Commands.ReadCmd | data/src/main/java/cloud/storage/data/Cmd.java:47-56 | readCmd on a buffer advances it by one byte and returns what ParseCmd says |
| Commands.FormattedOf | data/src/main/java/cloud/storage/data/Cmd.java:61 | the formatted names are MESSAGE, PING, TIME, SIGNUP, SIGNIN, SIGNOUT, UPLOAD, DOWNLOAD and MOVE |
| Commands.FormattedSigned | data/src/main/java/cloud/storage/data/Cmd.java:61 | SIGN_UP, SIGN_IN and SIGN_OUT lose their one underscore |
| Commands.FormattedPlain | data/src/main/java/cloud/storage/data/Cmd.java:61 | names without an underscore are kept |
| Commands.FormattedDistinct | data/src/main/java/cloud/storage/data/Cmd.java:60-63 | formatted names are distinct, so at most one command matches a name |
| Commands.Formatted | data/src/main/java/cloud/storage/data/Cmd.java:61 | the formatted name has no underscore left |
| Commands.FindByName | data/src/main/java/cloud/storage/data/Cmd.java:60-66 | the loop returns the first command whose formatted name equals the name, or "Unknown cmd" |
| Commands.GetCmd | data/src/main/java/cloud/storage/data/Cmd.java:58-67 | a command found has the upper-cased name as its formatted name; "Unknown cmd" is thrown only when no command has it |
| Commands.GetCmdCharacterised | data/src/main/java/cloud/storage/data/Cmd.java:58-67 | getCmd(name) returns c exactly when name upper-cased equals c's name without underscores, and throws "Unknown cmd" when no command matches |
| Commands.GetCmdSignUp | data/src/main/java/cloud/storage/data/Cmd.java:58-67 | any spelling that upper-cases to SIGNUP names SIGN_UP |
| Commands.GetCmdSignUpExamples | data/src/main/java/cloud/storage/data/Cmd.java:58-67 | "signup", "SignUp" and "SIGNUP" all name SIGN_UP |
| Commands.GetCmdUnderscoreUnknown | data/src/main/java/cloud/storage/data/Cmd.java:58-67 | a name with an underscore, such as "sign_up", names no command |
| Frames.PayloadByteLength | data/src/main/java/cloud/storage/data/Payload.java:18-21 | the length is one byte for the tag plus the body's length, a null body counting as 0 |
| Frames.BodyBytes | data/src/main/java/cloud/storage/data/Payload.java:20 | a null body contributes no bytes, any other body all of its bytes |
| Frames.PayloadBytes | data/src/main/java/cloud/storage/data/Payload.java:23-33 | the bytes are the tag and then the body, and there are getByteLength() of them |
| Frames.NullAndEmptyBodyAgree | data/src/main/java/cloud/storage/data/Payload.java:28-30 | a null body and an empty body are written identically, as the tag alone |
| Frames.PayloadBytesInjective | data/src/main/java/cloud/storage/data/Payload.java:23-33 | equal encodings mean the same command and the same body bytes |
| Frames.NewPacket | data/src/main/java/cloud/storage/data/Packet.java:14-16 | a packet records its payload and the payload's getByteLength() |
| Frames.PacketByteLength | data/src/main/java/cloud/storage/data/Packet.java:23-26 | a packet's length is four plus the recorded payload length |
| Frames.PacketBytes | data/src/main/java/cloud/storage/data/Packet.java:28-35 | the bytes are the payload length as an int, then the payload's bytes |
| Frames.Encode | data/src/main/java/cloud/storage/data/Packet.java:28-35 | what a sender writes starts with an int equal to the number of bytes after it, and those bytes are the payload |
| FrameDecoder.Drain | nio/src/main/java/cloud/storage/nio/ReplayingPacketDecoder.java:16-21 | repeated decode steps leave a suffix of the input buffered |
| FrameDecoder.FrameThenRest | nio/src/main/java/cloud/storage/nio/ReplayingPacketDecoder.java:16-21 | a complete frame at the front is emitted first, and what follows is decoded after it |
| FrameDecoder.DrainFramed | nio/src/main/java/cloud/storage/nio/ReplayingPacketDecoder.java:16-21 | decoding a run of framed payloads gives back exactly those frames, in order, and nothing stays buffered |
| FrameDecoder.DrainChunked | nio/src/main/java/cloud/storage/nio/ReplayingPacketDecoder.java:16-21 | decoding input delivered in two parts emits what decoding it at once emits; after a rejected header the decoder stays failed |
| FrameDecoder.DrainStuck | nio/src/main/java/cloud/storage/nio/ReplayingPacketDecoder.java:17-18 | without a whole frame at the front nothing is emitted and the bytes stay buffered |
| FrameDecoder.DrainStep | nio/src/main/java/cloud/storage/nio/ReplayingPacketDecoder.java:17-20 | a whole frame at the front is emitted and decoding continues after it |
| FrameDecoder.DecodePacket | nio/src/main/java/cloud/storage/nio/ReplayingPacketDecoder.java:16-21 | a packet's bytes decode to its payload's bytes as one frame, ahead of whatever the bytes after it decode to |
| FrameDecoder.ReplayingPacketDecoder.constructor | nio/src/main/java/cloud/storage/nio/ReplayingPacketDecoder.java:13 | a new decoder has nothing buffered |
| FrameDecoder.ReplayingPacketDecoder.ChannelRead | nio/src/main/java/cloud/storage/nio/ReplayingPacketDecoder.java:16-21 | a read appends the chunk and emits the frames Drain finds; the rest stays buffered |
| FrameDecoder.ReadAll | nio/src/main/java/cloud/storage/nio/ReplayingPacketDecoder.java:16-21 | however a stream is cut into chunks, one decoder emits the frames of the whole stream, and it fails exactly when decoding the whole stream fails |
| FrameDecoder.StreamOutcome | nio/src/main/java/cloud/storage/nio/ReplayingPacketDecoder.java:16-21 | what the stream decodes to follows from the decoding of its first chunks |
| FrameDecoder.DecodePayload | nio/src/main/java/cloud/storage/nio/PayloadDecoder.java:16-25 | the first byte is the tag and must be 0..8 ("Unknown cmd" otherwise, an underflow on an empty frame); the body is the remaining bytes, null exactly when none remain |
| FrameDecoder.DecodeFrame | nio/src/main/java/cloud/storage/nio/PayloadDecoder.java:16-25 | decode on a buffer returns what DecodePayload says of its readable bytes |
| FrameDecoder.Received | nio/src/main/java/cloud/storage/nio/PayloadDecoder.java:18-23 | a delivered payload keeps the command and the body bytes, and its body is null exactly when it was empty |
| FrameDecoder.PayloadRoundTrip | nio/src/main/java/cloud/storage/nio/PayloadDecoder.java:16-25 | decoding a payload's bytes gives the payload back, an empty body turned into null |
| FrameDecoder.EndToEnd | data/src/main/java/cloud/storage/data/Packet.java:28-35 | a payload sent and passed through both decoders arrives first, as Received(p) |
| UserDataCodec.UserDataLength | data/src/main/java/cloud/storage/data/UserData.java:21-24 | getLength() is two int fields plus the two strings' bytes, at least 8 + both length()s |
| UserDataCodec.StringField | data/src/main/java/cloud/storage/data/UserData.java:30-31 | a field is an int holding length(), then getBytes() |
| UserDataCodec.UserDataBytes | data/src/main/java/cloud/storage/data/UserData.java:26-33 | getBytes() is the login field then the password field, getLength() bytes in all |
| UserDataCodec.ParseUserData | data/src/main/java/cloud/storage/data/UserData.java:35-46 | fromBytes succeeds exactly when two string fields can be read, and reads the login then the password |
| UserDataCodec.StringFieldRoundTrip | data/src/main/java/cloud/storage/data/UserData.java:30-46 | reading a field written for an ASCII string gives the string back and stops right after it |
| UserDataCodec.FieldLength | data/src/main/java/cloud/storage/data/UserData.java:30 | the length field reads back as length(), followed by the bytes |
| UserDataCodec.UserDataRoundTrip | data/src/main/java/cloud/storage/data/UserData.java:26-46 | fromBytes(getBytes(u)) == u for ASCII strings, leaving whatever follows unread |
| UserDataCodec.NonAsciiLoginMisframed | data/src/main/java/cloud/storage/data/UserData.java:30 | a non-ASCII login announces fewer bytes than getBytes() writes |
| UserDataCodec.ReadUserData | data/src/main/java/cloud/storage/data/UserData.java:35-39 | fromBytes on a buffer reads what ParseUserData says and leaves the position after it |
| TimeDataCodec.TimeDataBytes | data/src/main/java/cloud/storage/data/TimeData.java:28-36 | getBytes() is getLength() == 8 bytes |
| TimeDataCodec.TimeDataOf | nio/src/main/java/cloud/storage/nio/TimeData.java:43-45 | fromBytes succeeds exactly when eight bytes are there, underflows otherwise, and yields a Java long |
| TimeDataCodec.TimeDataRoundTrip | data/src/main/java/cloud/storage/data/TimeData.java:33-40 | fromBytes(getBytes(t)) has t's timestamp for every long, whatever follows |
| TimeDataCodec.TimeDataPrefix | nio/src/main/java/cloud/storage/nio/TimeData.java:43-45 | only the first eight bytes are read |
| TimeDataCodec.TimeDataBytesOnto | data/src/main/java/cloud/storage/data/TimeData.java:33-40 | every eight-byte body is the encoding of the time it decodes to |
| SignInResponseCodec.GetStatus | data/src/main/java/cloud/storage/data/SignInResponse.java:16-24 | getStatus succeeds exactly on 1 and 2, inverting the status byte, and throws "Unknown status" otherwise |
| SignInResponseCodec.SuccessOf | data/src/main/java/cloud/storage/data/SignInResponse.java:54-56 | success(u) is a success carrying u |
| SignInResponseCodec.FailureOf | data/src/main/java/cloud/storage/data/SignInResponse.java:58-60 | failure(m) is a failure carrying m |
| SignInResponseCodec.SuccessXorFailure | data/src/main/java/cloud/storage/data/SignInResponse.java:46-52 | exactly one of isSuccess and isFailure holds |
| SignInResponseCodec.ResponseLength | data/src/main/java/cloud/storage/data/SignInResponse.java:78-84 | getLength() is 1 plus the user data, 1 for a null message, or 5 plus the message's length() |
| SignInResponseCodec.ResponseBytes | data/src/main/java/cloud/storage/data/SignInResponse.java:86-99 | getBytes() is the status byte then the user data or message field; a non-ASCII message overflows the array |
| SignInResponseCodec.NonAsciiRoom | data/src/main/java/cloud/storage/data/SignInResponse.java:83-95 | the array has room for the message bytes exactly when the message is ASCII; a message never has fewer bytes than length() |
| SignInResponseCodec.ParseResponse | data/src/main/java/cloud/storage/data/SignInResponse.java:62-76 | fromBytes yields only responses the factories can make; an empty buffer underflows, an unknown status throws, and [2] is a failure with a null message |
| SignInResponseCodec.ResponseRoundTrip | data/src/main/java/cloud/storage/data/SignInResponse.java:62-99 | fromBytes(getBytes(r)) == r for ASCII strings, consuming every byte |
| SignInResponseCodec.ReadResponse | data/src/main/java/cloud/storage/data/SignInResponse.java:62-76 | fromBytes on a buffer returns what ParseResponse says and advances by what it consumed |
| Paths.NameAt | client/src/main/java/cloud/storage/client/DownloadHandler.java:41 | a name extends up to the first separator |
| Paths.SplitNames | client/src/main/java/cloud/storage/client/DownloadHandler.java:41 | Path.of splits on '/' into non-empty names without separators |
| Paths.ParsePath | client/src/main/java/cloud/storage/client/DownloadHandler.java:41-44 | Path.of rejects exactly the strings containing NUL, and the path is absolute exactly when the string starts with '/' |
| Paths.PathString | client/src/main/java/cloud/storage/client/DownloadHandler.java:76 | toString() starts with '/' exactly for an absolute path |
| Paths.PathStringRoundTrip | client/src/main/java/cloud/storage/client/DownloadHandler.java:41-76 | printing a path and parsing it back gives the same path |
| Paths.Normalize | server/src/main/java/cloud/storage/server/UploadHandler.java:38 | normalize() keeps whether the path is absolute |
| Paths.NormalizeIsNormal | server/src/main/java/cloud/storage/server/UploadHandler.java:38 | a normalised path has no "." and, when absolute, no ".." |
| Paths.NormalizeIdempotent | server/src/main/java/cloud/storage/server/UploadHandler.java:38 | normalize leaves a normal path unchanged, so normalising twice is normalising once |
| Paths.Resolve | client/src/main/java/cloud/storage/client/DownloadHandler.java:65-66 | resolve replaces the base with an absolute path and appends a relative one |
| Paths.RelativizeUnder | client/src/main/java/cloud/storage/client/DownloadHandler.java:66 | for a base that is a prefix, relativize gives a relative path that resolves back to the original (the dot-free case of Relativize) |
| Paths.Relativize | client/src/main/java/cloud/storage/client/DownloadHandler.java:66 | relativize of a path against itself is the empty path, against a path of the other kind (absolute vs relative) is IllegalArgumentException, and any result is relative |
| Paths.RelativizeDefined | client/src/main/java/cloud/storage/client/DownloadHandler.java:66 | relativize succeeds for two paths of the same kind when the base is absolute or has no "." or ".." |
| Paths.RelativizeDotFree | client/src/main/java/cloud/storage/client/DownloadHandler.java:66 | without "." or "..", relativize against a prefix drops the prefix's names |
| Paths.RelativizeResolves | server/src/main/java/cloud/storage/server/file/manager/FileManager.java:65-66 | for well-formed paths of the same kind without "." or "..", resolving the result of relativize against the base and normalising gives the path back |
| Paths.RelativizeRefusesUp | client/src/main/java/cloud/storage/client/DownloadHandler.java:66 | a relative base whose unmatched part holds ".." is refused with IllegalArgumentException |
| Paths.NormalizeWellFormed | server/src/main/java/cloud/storage/server/UploadHandler.java:38 | normalize never produces an empty name, so a normalised path is again one Path.of could give |
| Paths.FromRoot | server/src/main/java/cloud/storage/server/file/manager/FileManager.java:178-181 | relativizing against the root gives the names of the path, relative |
| Auth.EmptyValid | server/src/main/java/cloud/storage/server/file/manager/FileManager.java:24-37 | a fresh FileManager, every map empty, satisfies the invariant |
| Auth.Bind | server/src/main/java/cloud/storage/server/file/manager/FileManager.java:52-61 | startSession refuses a login with a session, then an address with one; otherwise it binds both directions and nothing else |
| Auth.BindValid | server/src/main/java/cloud/storage/server/file/manager/FileManager.java:52-61 | startSession keeps the invariant for a registered login |
| Auth.Unbind | server/src/main/java/cloud/storage/server/file/manager/FileManager.java:70-79 | endSession changes nothing for an unbound address; otherwise it removes both directions and keeps users, penalties and counters |
| Auth.UnbindValid | server/src/main/java/cloud/storage/server/file/manager/FileManager.java:70-79 | endSession keeps the invariant, leaves the address without a session, and keeps every other address's session |
| Auth.UnbindIdempotent | server/src/main/java/cloud/storage/server/file/manager/FileManager.java:125-127 | signing out twice is signing out once |
| Auth.CheckBan | server/src/main/java/cloud/storage/server/file/manager/FileManager.java:40-50 | addressIsBanned holds exactly while the penalty is at most PENALTY old; an expired penalty is removed |
| Auth.CountAttempt | server/src/main/java/cloud/storage/server/file/manager/FileManager.java:106-112 | one more attempt is counted; going over the limit of 3 removes the counter and bans from now; sessions and users are untouched |
| Auth.SignIn | server/src/main/java/cloud/storage/server/file/manager/FileManager.java:102-123 | signIn never changes the credential table |
| Auth.SignInWhileBanned | server/src/main/java/cloud/storage/server/file/manager/FileManager.java:103-105 | a sign-in from a banned address is refused without counting, and nothing changes |
| Auth.SignInCounts | server/src/main/java/cloud/storage/server/file/manager/FileManager.java:106-112 | every sign-in not refused as banned is counted; the one over the limit bans and is refused whatever the credentials |
| Auth.SignInRefusals | server/src/main/java/cloud/storage/server/file/manager/FileManager.java:113-121 | after counting: an address with a session, an unknown login and a wrong password are refused in that order |
| Auth.SignInSucceeds | server/src/main/java/cloud/storage/server/file/manager/FileManager.java:102-123 | a sign-in succeeds exactly when the address is not banned, has attempts left and no session, and the login exists with this password and has no session; both directions are then bound and the attempt stays counted |
| Auth.SignInValid | server/src/main/java/cloud/storage/server/file/manager/FileManager.java:102-123 | signIn keeps the invariant |
| Auth.BanLifecycle | server/src/main/java/cloud/storage/server/file/manager/FileManager.java:40-50 | the fourth counted attempt bans at t; sign-ins up to t + PENALTY are refused without counting, and the first after that counts as attempt one |
| Auth.FiveMinutesIsStillBanned | server/src/main/java/cloud/storage/server/file/manager/FileManager.java:45 | exactly five minutes after a ban the address is still banned, and one millisecond later it is not |
| EarlyFileManager.StartSessionResult | file-manager/src/main/java/cloud/storage/file/manager/FileManager.java:42-56 | a started session is answered "The session began successfully."; a refusal carries startSession's message and changes nothing |
| EarlyFileManager.SignInResult | file-manager/src/main/java/cloud/storage/file/manager/FileManager.java:83-104 | signIn changes what Auth.SignIn changes and succeeds when it does, with this revision's reply text |
| EarlyFileManager.SignUpResult | file-manager/src/main/java/cloud/storage/file/manager/FileManager.java:69-81 | an address with a session is refused first, then a taken login, each changing nothing; success stores the credential and answers "The session began successfully." |
| EarlyFileManager.SignUpSucceeds | file-manager/src/main/java/cloud/storage/file/manager/FileManager.java:69-81 | signUp succeeds exactly when the address has no session and the login is new; it stores the credential and binds the session, never touches counters or bans, and a refusal changes nothing |
| EarlyFileManager.SignUpValid | file-manager/src/main/java/cloud/storage/file/manager/FileManager.java:69-81 | signUp keeps the invariant |
| EarlyFileManager.UsersOnlyGrow | file-manager/src/main/java/cloud/storage/file/manager/FileManager.java:69-108 | no operation removes or changes a credential |
| EarlyFileManager.FileManager.constructor | file-manager/src/main/java/cloud/storage/file/manager/FileManager.java:26-28 | a new FileManager has every map empty |
| EarlyFileManager.FileManager.AddressIsBanned | file-manager/src/main/java/cloud/storage/file/manager/FileManager.java:30-40 | the fields change as CheckBan says |
| EarlyFileManager.FileManager.StartSession | file-manager/src/main/java/cloud/storage/file/manager/FileManager.java:42-56 | the fields and reply follow StartSessionResult |
| EarlyFileManager.FileManager.EndSession | file-manager/src/main/java/cloud/storage/file/manager/FileManager.java:58-67 | the fields follow Unbind and the accounts invariant is kept |
| EarlyFileManager.FileManager.SignUp | file-manager/src/main/java/cloud/storage/file/manager/FileManager.java:69-81 | the fields and reply follow SignUpResult and the accounts invariant is kept |
| EarlyFileManager.FileManager.SignIn | file-manager/src/main/java/cloud/storage/file/manager/FileManager.java:83-104 | the fields and reply follow SignInResult and the accounts invariant is kept |
| EarlyFileManager.FileManager.SignOut | file-manager/src/main/java/cloud/storage/file/manager/FileManager.java:106-108 | the fields follow Unbind and the accounts invariant is kept |
| ServerFileManager.UserFile | server/src/main/java/cloud/storage/server/file/manager/FileManager.java:154 | new File(root, login) is the root's names followed by the login's names |
| ServerFileManager.FolderCheckNarrows | server/src/main/java/cloud/storage/server/file/manager/FileManager.java:156 | the corrected check accepts only logins the check as written accepts |
| ServerFileManager.PlainFolder | server/src/main/java/cloud/storage/server/file/manager/FileManager.java:154-156 | a plain login's folder is the root plus that name, already normal, strictly under the root |
| ServerFileManager.CreateUserFolderResult | server/src/main/java/cloud/storage/server/file/manager/FileManager.java:153-168 | a folder is made exactly when the login passes the corrected check and the disk allows it; the working directory is then the normalised folder, and a failure changes nothing |
| ServerFileManager.ComputeFolder | server/src/main/java/cloud/storage/server/file/manager/FileManager.java:92 | a stored folder is returned unchanged; otherwise a folder is stored exactly when the corrected check and the disk allow it, and nothing changes when none is made |
| ServerFileManager.EmptyServerValid | server/src/main/java/cloud/storage/server/file/manager/FileManager.java:34-38 | a fresh server satisfies the invariant |
| ServerFileManager.FoldersDisjoint | server/src/main/java/cloud/storage/server/file/manager/FileManager.java:92 | two users' folders share no path |
| ServerFileManager.StartSessionResult | server/src/main/java/cloud/storage/server/file/manager/FileManager.java:52-68 | a session starts exactly when Bind allows it; a refusal carries Bind's message and changes nothing |
| ServerFileManager.FreshSessionMessage | server/src/main/java/cloud/storage/server/file/manager/FileManager.java:65-67 | a session in the user's own folder is reported as "login /" |
| ServerFileManager.SignUpResult | server/src/main/java/cloud/storage/server/file/manager/FileManager.java:81-100 | an address with a session is refused first, then a taken login, each changing nothing; success stores the credential, binds the session and records a folder |
| ServerFileManager.SignUpFresh | server/src/main/java/cloud/storage/server/file/manager/FileManager.java:81-100 | a new plain login whose folder can be made gets the credential, the folder and the session |
| ServerFileManager.SignUpRolledBack | server/src/main/java/cloud/storage/server/file/manager/FileManager.java:92-97 | a new login whose folder cannot be made is removed again, and nothing changes |
| ServerFileManager.SignUpSucceeds | server/src/main/java/cloud/storage/server/file/manager/FileManager.java:81-100 | signUp succeeds exactly when the address has no session and the login is new, plain and its folder can be made; any refusal changes nothing |
| ServerFileManager.SignUpValid | server/src/main/java/cloud/storage/server/file/manager/FileManager.java:81-100 | signUp keeps the invariant |
| ServerFileManager.SignInResult | server/src/main/java/cloud/storage/server/file/manager/FileManager.java:102-123 | signIn changes the accounts as Auth.SignIn does, succeeds exactly when it does, and a refusal carries its message |
| ServerFileManager.SignInReply | server/src/main/java/cloud/storage/server/file/manager/FileManager.java:122 | a successful sign-in is answered "login /" |
| ServerFileManager.SignInConsistent | server/src/main/java/cloud/storage/server/file/manager/FileManager.java:102-123 | signIn keeps the invariant |
| ServerFileManager.SignOutResult | server/src/main/java/cloud/storage/server/file/manager/FileManager.java:125-127 | after signOut the address has no session, and an address without one changes nothing |
| ServerFileManager.SignOutValid | server/src/main/java/cloud/storage/server/file/manager/FileManager.java:125-127 | signOut keeps the invariant |
| ServerFileManager.ResolveUserPath | server/src/main/java/cloud/storage/server/file/manager/FileManager.java:174-189 | a resolved path is strictly under the normalised folder; anything else is refused with the access message |
| ServerFileManager.ResolvedIsInside | server/src/main/java/cloud/storage/server/file/manager/FileManager.java:174-189 | from an absolute working directory the resolved path is normal, absolute and free of "..", so it is inside the folder on disk too |
| ServerFileManager.ResolveAcceptsPlain | server/src/main/java/cloud/storage/server/file/manager/FileManager.java:174-189 | from the folder itself every non-empty path of plain names is accepted and names the file under the folder |
| ServerFileManager.Copy | server/src/main/java/cloud/storage/server/file/manager/FileManager.java:143 | a successful Files.copy adds exactly the new file and never overwrites one |
| ServerFileManager.UploadFileResult | server/src/main/java/cloud/storage/server/file/manager/FileManager.java:129-151 | without a session the reply is the unknown-session one; any failure carries a message and, in the model, leaves the files on disk unchanged; success carries none and adds exactly one new file with the content |
| ServerFileManager.UploadConfined | server/src/main/java/cloud/storage/server/file/manager/FileManager.java:129-151 | an upload writes at most one new file, strictly inside the uploader's folder; in the model every failure leaves the files on disk unchanged; without a session the reply is the unknown-session one |
| ServerFileManager.FolderCheckAsWrittenLeaks | server/src/main/java/cloud/storage/server/file/manager/FileManager.java:153-168 | as written the login "." passes and gets the server root as its folder, so another user's file resolves as its own, and "x/." gets x's folder |
| ServerFileManager.DotFolder | server/src/main/java/cloud/storage/server/file/manager/FileManager.java:154-156 | the folder of "." normalises to the root |
| ServerFileManager.SlashDotFolder | server/src/main/java/cloud/storage/server/file/manager/FileManager.java:154-156 | the folder of "x/." normalises to the folder of "x" |
| ServerFileManager.CreateUserFolderAsWritten | server/src/main/java/cloud/storage/server/file/manager/FileManager.java:153-168 | as written a login with NUL throws InvalidPathException and changes nothing; otherwise the folder is made exactly when the check as written and the disk allow it |
| ServerFileManager.ComputeFolderAsWritten | server/src/main/java/cloud/storage/server/file/manager/FileManager.java:92 | as written a stored folder is reused, an exception stores nothing, and a made folder is stored |
| ServerFileManager.SignUpAsWritten | server/src/main/java/cloud/storage/server/file/manager/FileManager.java:81-100 | as written an exception from the folder leaves the new credential registered with no folder, and a refusal changes nothing |
| ServerFileManager.NulLoginKeptWithoutFolder | server/src/main/java/cloud/storage/server/file/manager/FileManager.java:88-92 | as written a new login with NUL throws, stays registered without a folder and breaks the invariant; corrected it is refused with the folder message and nothing changes |
| ServerFileManager.NestedLoginInsideAnother | server/src/main/java/cloud/storage/server/file/manager/FileManager.java:153-168 | as written "a/b" is signed up while "a" exists and its folder lies strictly inside a's; corrected it is refused |
| ServerFileManager.NestedFolder | server/src/main/java/cloud/storage/server/file/manager/FileManager.java:154-156 | the folder of "a/b" is the root, a and b, already normal, passes the check as written and lies inside a's folder |
| ServerFileManager.FileManager.constructor | server/src/main/java/cloud/storage/server/file/manager/FileManager.java:34-38 | the root is made absolute and normalised, and every map starts empty |
| ServerFileManager.FileManager.AddressIsBanned | server/src/main/java/cloud/storage/server/file/manager/FileManager.java:40-50 | the accounts change as CheckBan says; folders are untouched |
| ServerFileManager.FileManager.StartSession | server/src/main/java/cloud/storage/server/file/manager/FileManager.java:52-68 | the fields and reply follow StartSessionResult |
| ServerFileManager.FileManager.EndSession | server/src/main/java/cloud/storage/server/file/manager/FileManager.java:70-79 | the fields follow SignOutResult |
| ServerFileManager.FileManager.CreateUserFolder | server/src/main/java/cloud/storage/server/file/manager/FileManager.java:153-168 | the fields and result follow CreateUserFolderResult |
| ServerFileManager.FileManager.ComputeUserRoot | server/src/main/java/cloud/storage/server/file/manager/FileManager.java:92 | a stored folder is reused; a new one is stored only when it was made |
| ServerFileManager.FileManager.SignUp | server/src/main/java/cloud/storage/server/file/manager/FileManager.java:81-100 | the fields and reply follow SignUpResult, and the invariant holds after it |
| ServerFileManager.FileManager.CountSignInAttempt | server/src/main/java/cloud/storage/server/file/manager/FileManager.java:106-112 | the accounts change as CountAttempt says; folders are untouched |
| ServerFileManager.FileManager.SignIn | server/src/main/java/cloud/storage/server/file/manager/FileManager.java:102-123 | the fields and reply follow SignInResult, and the invariant holds after it |
| ServerFileManager.FileManager.SignOut | server/src/main/java/cloud/storage/server/file/manager/FileManager.java:125-127 | the fields follow SignOutResult, and the invariant holds after it |
| ServerFileManager.FileManager.UploadFile | server/src/main/java/cloud/storage/server/file/manager/FileManager.java:129-151 | the reply and the disk follow UploadFileResult |
| ServerHandlers.Wire | server/src/main/java/cloud/storage/server/SignInHandler.java:33-35 | a reply keeps its command, has a null body exactly when built without one, and only a SignInResponse's encoding can fail |
| ServerHandlers.HandleSignUp | server/src/main/java/cloud/storage/server/SignUpHandler.java:23-31 | a null body or unreadable user data closes the connection and changes nothing; otherwise the state is signUp's, success is answered SIGN_IN with success(userData) and a failure SIGN_UP with its message |
| ServerHandlers.HandleSignIn | server/src/main/java/cloud/storage/server/SignInHandler.java:29-37 | a null body or unreadable user data closes the connection and changes nothing; otherwise the state is signIn's and the one reply is SIGN_IN with success(userData) or failure(message) |
| ServerHandlers.SignUpHandlerReplies | server/src/main/java/cloud/storage/server/SignUpHandler.java:23-31 | SIGN_UP is answered success(userData) exactly when the address is free, the login new and plain and the folder can be made; otherwise SIGN_UP with the session, login or folder message |
| ServerHandlers.SignInHandlerReplies | server/src/main/java/cloud/storage/server/SignInHandler.java:29-37 | SIGN_IN is answered success(userData) when the accounts let the user in, and failure with the accounts' reason otherwise |
| ServerHandlers.DecodeUpload | server/src/main/java/cloud/storage/server/UploadHandler.java:32-38 | a decoded path is normal; a failure is an underflow, a negative length or an invalid path |
| ServerHandlers.UploadReplies | server/src/main/java/cloud/storage/server/UploadHandler.java:42-49 | an upload is answered with its outcome, then the FileManager's message when there is one |
| ServerHandlers.HandleUpload | server/src/main/java/cloud/storage/server/UploadHandler.java:30-56 | the connection closes exactly on a null or undecodable body, leaving the disk; otherwise one or two UPLOAD texts: a failure leaves the disk, no session adds the unknown-session text, and success is one reply with exactly one new file holding the content |
| ServerHandlers.DecodeDownload | server/src/main/java/cloud/storage/server/DownloadHandler.java:25-26 | decoding succeeds exactly when the body's text has no NUL, and the path is normal |
| ServerHandlers.DownloadReply | server/src/main/java/cloud/storage/server/DownloadHandler.java:28-40 | a readable stream is answered DOWNLOAD with all its bytes, an unreadable one MESSAGE with the fixed text, no stream MESSAGE with the message, and a null message throws |
| ServerHandlers.HandleDownload | server/src/main/java/cloud/storage/server/DownloadHandler.java:24-28 | a null body throws, a path with NUL is InvalidPathException, otherwise downloadFile is asked for the normalised path and answered as DownloadReply says |
| ServerHandlers.DecodeMove | server/src/main/java/cloud/storage/server/MoveHandler.java:23-33 | decoding succeeds exactly when both length-prefixed strings are read and hold no NUL, and gives their paths unnormalised; failures are underflow, a negative length or an invalid path |
| ServerHandlers.MoveReply | server/src/main/java/cloud/storage/server/MoveHandler.java:36-41 | a move is always answered MESSAGE: a fixed text on success, the failure message, or a fixed text when that is null |
| ServerHandlers.HandleMove | server/src/main/java/cloud/storage/server/MoveHandler.java:22-42 | the connection closes exactly on a null or undecodable body; otherwise moveFile on the decoded paths is answered with one MESSAGE |
| ServerHandlers.Unregistered | server/src/main/java/cloud/storage/server/RequestHandler.java:37-40 | after the channel closes the address has no session, nor does the user it was signed in as |
| ServerHandlers.HandleRequest | server/src/main/java/cloud/storage/server/RequestHandler.java:43-51 | a command without a handler is answered PING with the fixed text and changes nothing; PING echoes the body; the other commands are what their handlers do |
| ServerHandlers.SignUpHandlerValid | server/src/main/java/cloud/storage/server/SignUpHandler.java:23-31 | SIGN_UP keeps the FileManager's invariant |
| ServerHandlers.SignUpHandlerClosed | server/src/main/java/cloud/storage/server/SignUpHandler.java:24 | SIGN_UP closes the connection exactly when the body is null or not user data, and then changes nothing |
| ServerHandlers.SignInHandlerValid | server/src/main/java/cloud/storage/server/SignInHandler.java:29-37 | SIGN_IN keeps the FileManager's invariant |
| ServerHandlers.HandleRequestValid | server/src/main/java/cloud/storage/server/RequestHandler.java:42-51 | every request keeps the FileManager's invariant |
| ServerHandlers.HandleRequestFrame | server/src/main/java/cloud/storage/server/RequestHandler.java:25-51 | only sign-up, sign-in and sign-out change the FileManager's maps and only an upload the disk; a command without a handler is answered with PING and a fixed text |
| ServerHandlers.ClosingRequestChangesNothing | server/src/main/java/cloud/storage/server/RequestHandler.java:53-57 | a request that closes the connection changes neither the FileManager nor the disk |
| ServerHandlers.RepliesWellFormed | server/src/main/java/cloud/storage/server/RequestHandler.java:42-51 | every reply a handler builds can be encoded |
| ServerHandlers.SignOutAnswered | server/src/main/java/cloud/storage/server/SignOutHandler.java:27-30 | SIGN_OUT is answered with a null body whether or not there was a session, and a repeat changes nothing more |
| ServerHandlers.DisconnectEndsSession | server/src/main/java/cloud/storage/server/RequestHandler.java:37-40 | closing keeps the invariant, removes exactly the address's session, and keeps users, folders, penalties and counters |
| ServerHandlers.TimeReplyDecodes | server/src/main/java/cloud/storage/server/TimePayloadHandler.java:17-20 | the TIME reply carries the clock reading, and decoding it gives the reading back |
| ClientCommands.PingRequest | client/src/main/java/cloud/storage/client/PingHandler.java:34-37 | execute always writes PING with a body |
| ClientCommands.PingShow | client/src/main/java/cloud/storage/client/PingHandler.java:45-49 | the reply is shown as "ping " followed by the body's text, nothing more for a null body |
| ClientCommands.TimeRequest | client/src/main/java/cloud/storage/client/TimeHandler.java:35-38 | the request is TIME with a null body, the tag alone on the wire |
| ClientCommands.TimeShow | client/src/main/java/cloud/storage/client/TimeHandler.java:46-49 | a null body throws; otherwise the time is TimeData.fromBytes of the body |
| ClientCommands.CredentialsRequest | client/src/main/java/cloud/storage/client/SignInHandler.java:29-37 | exactly two arguments are required; the request is written exactly when the record is encodable, and carries the command given |
| ClientCommands.TextOf | client/src/main/java/cloud/storage/client/SignUpHandler.java:31-34 | a reply's text throws exactly on a null body and has one character per byte |
| ClientCommands.SignInShow | client/src/main/java/cloud/storage/client/SignInHandler.java:39-48 | a null body throws; success records the login and shows "Signed in successfully"; a failure shows its message and records nothing; a failure without a message throws NullPointerException |
| ClientCommands.SignOutRequest | client/src/main/java/cloud/storage/client/SignOutHandler.java:40-43 | the request is SIGN_OUT with a null body |
| ClientCommands.UploadBody | client/src/main/java/cloud/storage/client/UploadHandler.java:53-55 | the body starts with an int holding the path's length() and ends with the file content, 4 + path bytes + content bytes in all |
| ClientCommands.PowerOfTwoAtLeast | client/src/main/java/cloud/storage/client/UploadHandler.java:52-55 | the doubled capacity is at least the request and less than twice it |
| ClientCommands.NewCapacity | client/src/main/java/cloud/storage/client/UploadHandler.java:52-55 | a grown buffer's capacity covers the request and stays in the int range |
| ClientCommands.Grow | client/src/main/java/cloud/storage/client/UploadHandler.java:53-55 | a write never shrinks the buffer and leaves room for what was written |
| ClientCommands.UploadCapacity | client/src/main/java/cloud/storage/client/UploadHandler.java:52-55 | the final capacity covers the int, the path bytes and the content, within the int range |
| ClientCommands.Zeros | client/src/main/java/cloud/storage/client/UploadHandler.java:56 | the unwritten part of the backing array is zeros |
| ClientCommands.UploadCheck | client/src/main/java/cloud/storage/client/UploadHandler.java:33-63 | the checks pass only for two arguments, a readable local file and a body within the int range |
| ClientCommands.UploadRequestAsWritten | client/src/main/java/cloud/storage/client/UploadHandler.java:33-65 | execute as written fails exactly when a check fails, and otherwise writes UPLOAD with a body |
| ClientCommands.UploadRequest | client/src/main/java/cloud/storage/client/UploadHandler.java:33-65 | the corrected execute fails exactly as the original does, and its body is a prefix of the original's |
| ClientCommands.UploadBodyExact | client/src/main/java/cloud/storage/client/UploadHandler.java:52-56 | corrected, the body is exactly the path field followed by the content |
| ClientCommands.UploadPadded | client/src/main/java/cloud/storage/client/UploadHandler.java:52-56 | as written, the path "a" and a ten-byte file give a 64-byte body whose last 49 bytes are zeros |
| ClientCommands.MoveBody | client/src/main/java/cloud/storage/client/MoveHandler.java:33-38 | the body has 8 bytes for the two lengths plus both paths' bytes |
| ClientCommands.MoveRequest | client/src/main/java/cloud/storage/client/MoveHandler.java:21-45 | exactly two arguments are required, and a written request is MOVE with a body |
| ClientCommands.MoveRequestAscii | client/src/main/java/cloud/storage/client/MoveHandler.java:33-39 | a MOVE is written exactly when both paths are ASCII, with exactly the two fields; otherwise the array overflows and the promise fails |
| ClientDownload.ExecuteResult | client/src/main/java/cloud/storage/client/DownloadHandler.java:30-53 | a request is written exactly for two arguments and a valid save path; it carries the cloud path's bytes and makes the save path pending; a refusal keeps the pending path |
| ClientDownload.HandleResult | client/src/main/java/cloud/storage/client/DownloadHandler.java:55-81 | no pending path or a null body throws; otherwise a saved file reports where (the save path with "~" expanded by relativize and resolve) and clears the pending path, a failed save keeps the expanded path |
| ClientDownload.DownloadHandler.constructor | client/src/main/java/cloud/storage/client/DownloadHandler.java:23 | nothing is pending at first |
| ClientDownload.DownloadHandler.Execute | client/src/main/java/cloud/storage/client/DownloadHandler.java:30-53 | the field and request follow ExecuteResult |
| ClientDownload.DownloadHandler.Handle0 | client/src/main/java/cloud/storage/client/DownloadHandler.java:55-81 | the field and result follow HandleResult, whose home expansion relativizes with JDK normalisation |
| ClientDownload.ExpandHomeUnderHome | client/src/main/java/cloud/storage/client/DownloadHandler.java:63-67 | a save path under "~" without "." or ".." lands under the home directory with the names after "~" kept; any other path is used as given |
| ClientDownload.ExpandHome | client/src/main/java/cloud/storage/client/DownloadHandler.java:63-67 | a save path under "~" lands under the home directory; any other path is used as given |
| ClientDownload.ExpandHomeNormalizes | client/src/main/java/cloud/storage/client/DownloadHandler.java:63-67 | a save path under "~" whose normal form is still under "~" becomes the home directory followed by the normal form's names after "~" |
| ClientDownload.ExpandHomeDropsDot | client/src/main/java/cloud/storage/client/DownloadHandler.java:63-67 | "~/a/./f" is saved as home/a/f |
| ClientDownload.ExpandHomeFoldsUp | client/src/main/java/cloud/storage/client/DownloadHandler.java:63-67 | "~/a/../b" is saved as home/b |
| ClientDownload.ExpandHomeIdempotent | client/src/main/java/cloud/storage/client/DownloadHandler.java:63-67 | with an absolute home, expanding twice is expanding once |
| ClientDownload.DownloadOneShot | client/src/main/java/cloud/storage/client/DownloadHandler.java:30-81 | an accepted request and a saved reply leave nothing pending and name the save path with "~" expanded (by relativize, which normalises dotted paths); a failed save keeps the expanded path pending |
| ClientRouting.ParseCommand | client/src/main/java/cloud/storage/client/CommandParser.java:13-27 | parsing fails only with "Unknown command." or the wrong-input message |
| ClientRouting.CommandParserWrite | client/src/main/java/cloud/storage/client/CommandParser.java:13-32 | a line becomes a CommandMessage exactly when it parses; other messages pass unchanged |
| ClientRouting.TableExecute | client/src/main/java/cloud/storage/client/ChannelCommandHandler.java:18-24 | PING builds the ping request from its words, TIME the time request, SIGN_OUT the sign-out request, SIGN_UP and SIGN_IN the credentials request; a written request has the entry's own command |
| ClientRouting.CommandHandlerWrite | client/src/main/java/cloud/storage/client/ChannelCommandHandler.java:27-39 | a command outside the table fails with "Cant handle command" and its name; a command in it becomes the packet its handler's execute writes, or fails with the exception execute refused with; other messages pass unchanged |
| ClientRouting.HandleReply | client/src/main/java/cloud/storage/client/ChannelPayloadHandler.java:26-32 | PING shows the echoed text, TIME the server time, SIGN_IN the sign-in text (recording the login on success), SIGN_OUT "Signed out" (forgetting the login), UPLOAD and SIGN_UP the reply text, MOVE nothing; each fails exactly when its body decoding fails, with that exception; only SIGN_IN records a login and only SIGN_OUT forgets it |
| ClientRouting.PayloadHandlerRead | client/src/main/java/cloud/storage/client/ChannelPayloadHandler.java:35-47 | a reply outside the table is dropped; one in it yields exactly what its handler's handle yields, or fails with the same exception; any other message passes on unchanged |
| ClientRouting.EmptyNameUnknown | data/src/main/java/cloud/storage/data/Cmd.java:58-67 | the empty word names no command |
| ClientRouting.ParseCommandCharacterised | client/src/main/java/cloud/storage/client/ClientHandler.java:108-122 | parsing succeeds exactly when the first word names a command, with the other words as arguments; a blank line is "Unknown command." and the wrong-input branch never fires |
| ClientRouting.SendLineRoutes | client/src/main/java/cloud/storage/client/ChannelCommandHandler.java:27-39 | a line becomes a request only for a command in both tables, tagged with that command; a parsed command outside them fails with its name |
| ClientRouting.SendLine | client/src/main/java/cloud/storage/client/ChannelCommandHandler.java:28-38 | a line that does not parse fails with the parser's error; a line that gets through is a request packet for a command in the table |
| ClientLoop.Prompt | client/src/main/java/cloud/storage/client/ClientHandler.java:80 | the prompt is the working directory between "<" and ">:", and "<>:" when there is none |
| ClientLoop.Shutdown | client/src/main/java/cloud/storage/client/ClientHandler.java:183-189 | after shutdown the channel is closed and no read follows |
| ClientLoop.ExecuteCommandResult | client/src/main/java/cloud/storage/client/ClientHandler.java:124-136 | MESSAGE fails with "Unknown command passed.", a second command while one waits fails on the duplicate name; otherwise the command waits and the request is UPLOAD's, MOVE's, DOWNLOAD's (with its save path) or the table entry's execute for the arguments, carrying the command's tag |
| ClientLoop.Listener | client/src/main/java/cloud/storage/client/ClientHandler.java:169-181 | corrected, the listener always schedules the next read and clears the waiting handler exactly when the command failed |
| ClientLoop.ListenerAsWritten | client/src/main/java/cloud/storage/client/ClientHandler.java:169-181 | as written, the read is lost exactly when a failed command leaves no handler to remove |
| ClientLoop.SubmitResult | client/src/main/java/cloud/storage/client/ClientHandler.java:96-103 | a line that does not parse is refused with its error and changes nothing; a written request is for the parsed command, sent only when nothing waited, and that command now waits |
| ClientLoop.SendCommandResult | client/src/main/java/cloud/storage/client/ClientHandler.java:78-106 | corrected, the prompt is shown first, "help" shows the help lines and sends nothing, a sent request's command is the one now waiting, and the working directory is kept |
| ClientLoop.SendCommandAsWritten | client/src/main/java/cloud/storage/client/ClientHandler.java:78-106 | as written, the same text is shown and the same request sent as corrected, but after "help" no read is scheduled |
| ClientLoop.ChannelReadResult | nio/src/main/java/cloud/storage/nio/AbstractDuplexCommandPayloadHandler.java:20-41 | a reply to the waiting command shows what its handle shows followed by the prompt for the working directory the reply leaves (for DOWNLOAD: the save message and the prompt); a failing handle shuts the client down and shows nothing; only a DOWNLOAD reply changes the save path, and anything is shown only for a reply to the waiting command |
| ClientLoop.Texts | client/src/main/java/cloud/storage/client/ClientHandler.java:139-143 | each line is shown as text, in order |
| ClientLoop.ClientHandler.constructor | client/src/main/java/cloud/storage/client/ClientHandler.java:41-61 | a new handler has no working directory, nothing waiting, the first read scheduled and the channel open |
| ClientLoop.ClientHandler.ExecuteCommand | client/src/main/java/cloud/storage/client/ClientHandler.java:124-136 | the fields and request follow ExecuteCommandResult, and no MESSAGE handler is left waiting |
| ClientLoop.ClientHandler.SendCommand | client/src/main/java/cloud/storage/client/ClientHandler.java:78-106 | the fields, the text shown and the request sent follow the corrected SendCommandResult, and no MESSAGE handler is left waiting |
| ClientLoop.ClientHandler.Submit | client/src/main/java/cloud/storage/client/ClientHandler.java:96-103 | the fields and request follow parseCommand then executeCommand, and no MESSAGE handler is left waiting |
| ClientLoop.ClientHandler.ChannelRead | nio/src/main/java/cloud/storage/nio/AbstractDuplexCommandPayloadHandler.java:20-41 | the fields and text shown follow ChannelReadResult, and no MESSAGE handler is left waiting |
| ClientLoop.SendCommandKeepsValid | client/src/main/java/cloud/storage/client/ClientHandler.java:124-129 | no line lets a MESSAGE handler wait |
| ClientLoop.ChannelReadKeepsValid | nio/src/main/java/cloud/storage/nio/AbstractDuplexCommandPayloadHandler.java:20-32 | no reply lets a MESSAGE handler wait |
| ClientLoop.KeepsReading | client/src/main/java/cloud/storage/client/ClientHandler.java:78-106 | corrected, every line except "exit" and the end of input is followed by another read, and only those close the channel |
| ClientLoop.AsWrittenDiffers | client/src/main/java/cloud/storage/client/ClientHandler.java:91-104 | the loop as written differs from the corrected one only on "help" and on a failure with nothing waiting, and there it stops reading and leaves the channel as it was |
| ClientLoop.RefusedWithoutHandler | client/src/main/java/cloud/storage/client/ClientHandler.java:96-136 | a failure with nothing waiting is a parse failure or MESSAGE |
| ClientLoop.BlankLineStalls | client/src/main/java/cloud/storage/client/ClientHandler.java:108-122 | as written an empty line stops the loop; corrected, the next line is read |
| ClientLoop.HelpStalls | client/src/main/java/cloud/storage/client/ClientHandler.java:91-94 | as written "help" stops the loop; corrected, the next line is read |
| ClientLoop.OneShot | nio/src/main/java/cloud/storage/nio/AbstractDuplexCommandPayloadHandler.java:20-32 | after any reply no handler waits, unless handling threw and the client shut down; a reply with nothing waiting changes and shows nothing |
| ClientLoop.SignOutReplyForgets | client/src/main/java/cloud/storage/client/SignOutHandler.java:51-55 | a SIGN_OUT reply forgets the working directory and shows "Signed out" with the bare prompt |
| ClientLoop.PromptFollowsReply | client/src/main/java/cloud/storage/client/ClientHandler.java:139-143 | a reply's line is followed by the prompt built from the working directory the reply left |
| Exchange.UploadArrives | server/src/main/java/cloud/storage/server/UploadHandler.java:32-41 | the server reads the cloud path the client sent, normalised, and exactly the file's content; a path with NUL is refused |
| Exchange.UploadAsWrittenArrives | client/src/main/java/cloud/storage/client/UploadHandler.java:52-56 | as written, the server reads the content followed by the buffer's padding zeros |
| Exchange.UploadAsWrittenCorrupts | server/src/main/java/cloud/storage/server/UploadHandler.java:40-41 | as written a ten-byte file uploaded as "a" is stored as 59 bytes; corrected, exactly its content is stored |
| Exchange.MoveArrives | server/src/main/java/cloud/storage/server/MoveHandler.java:22-33 | with ASCII paths the server reads the source and destination the client sent |
| Exchange.CredentialsArrive | server/src/main/java/cloud/storage/server/SignInHandler.java:30 | with ASCII credentials the server reads exactly the login and password typed |
| Exchange.DownloadArrives | server/src/main/java/cloud/storage/server/DownloadHandler.java:25-26 | after the frame decoder, the server reads the cloud path the client sent, normalised, and answers with downloadFile's reply for it; a path with NUL closes with InvalidPathException; an empty cloud path arrives as a null body and closes with NullPointerException |
| Exchange.SignInSuccessShown | client/src/main/java/cloud/storage/client/SignInHandler.java:41-44 | a success reply shows "Signed in successfully" and records the login the server returned |
| Exchange.SignInFailureShown | client/src/main/java/cloud/storage/client/SignInHandler.java:45-46 | a failure reply shows the server's message and records no login |
| Exchange.TextShown | client/src/main/java/cloud/storage/client/SignUpHandler.java:32-33 | after the frame decoder, a text reply shows the server's non-empty ASCII text unchanged; an empty text arrives as a null body and the client's handler throws NullPointerException |
| Exchange.EmptyFileShutsClient | server/src/main/java/cloud/storage/server/DownloadHandler.java:32-33 | an empty cloud file is sent as DOWNLOAD with an empty body, which the client receives as null; the waiting DOWNLOAD handler throws on it (Unpooled.wrappedBuffer(null), client DownloadHandler.java:60), and the client shuts down showing nothing |
| Exchange.TimeShown | client/src/main/java/cloud/storage/client/TimeHandler.java:47-48 | the client reads back the server's clock |
| Exchange.PingEchoed | server/src/main/java/cloud/storage/server/PingPayloadHandler.java:25-28 | the server echoes the body, and the client shows "ping " and the words typed |

## Left out

- ServerFileManager.UploadFileResult: the disk is modelled as a map of files only; directories are not part of it. So what a failed upload leaves behind is not modelled: the directories `mkdirs` made (FileManager.java:142) and a partly written file when `Files.copy` fails midway (:143).
- UploadConfined: its "every failure leaves the disk unchanged" holds of the modelled files only. In the source an IOException can leave new directories or a partly written file behind.
- I/O is left out: printing, the prompt's line breaks, and the "Connected to server." and "Shutting down" messages. Diagnostics on stderr, stack traces and the server's console log are left out too. The model records what is shown as a sequence of lines.
- Concurrency is left out: the executor thread, `volatile` fields and the ordering of Netty events. Each read and each reply is one atomic step.
- The date formatting of TimeData.toString is left out. A time reply is shown as the TimeData value.
- ClientDownload.HandleResult: creating the parent directories and the bytes written to disk are left out. Files.copy's outcome is an input.
- ServerFileManager.CreateUserFolderResult: the disk checks (exists, mkdir, isDirectory, canWrite, canRead) and a SecurityException are one input, `ready`.
- `downloadFile` and `moveFile` of the server FileManager are not part of this model; their answers are inputs to the server handlers.
- Asynchronous write failures of a promise after the request is handed to Netty are left out. A written request succeeds.
- JStrings.NewString: decoding of multi-byte UTF-8 is not modelled. A byte of 0x80 or more decodes to U+FFFD, so the round trips are proved for ASCII text.
- JStrings.ToUpperCase: locale-specific and non-ASCII case mapping are not modelled.
- Paths.ParsePath: only NUL makes a path invalid, as on Unix. Other file systems' rules are left out.
- ClientCommands.NewCapacity: Netty's buffer growth (calculateNewCapacity, 4 MiB threshold, minimum 64) is modelled from its documented behaviour, since Netty's source is not part of this model.
- Netty's pipeline internals (addBefore, remove, channel close) are reduced to the ClientHandler's fields: the waiting command, the scheduled read, the channel open.
- The client SignUpHandler and SignInHandler implement the older, table-based interfaces. In the ClientHandler registry they are treated like the other one-shot handlers. `clientHandler.signIn(login)` is modelled as setting the working directory to the login, which is what setWorkingDirectory does.
- Cursor.ByteCursor.Get and the other cursor methods model ByteBuffer and ByteBuf only as a read position over a byte sequence. Writing, capacity and reference counting (release/retain) are left out.
- ServerFileManager.FolderCheck: the check every signUp member below uses is the corrected one (a single plain name). As written, createUserFolder only asks that the normalised folder start with the root, and a login with NUL throws. That behaviour is modelled separately by FolderCheckAsWritten, CreateUserFolderAsWritten, ComputeFolderAsWritten and SignUpAsWritten (see "## Findings").
- CreateUserFolderResult: gives the corrected check. As written, "." and "x/." are accepted (FolderCheckAsWrittenLeaks), so is "a/b" (NestedLoginInsideAnother), and a login with NUL throws InvalidPathException (CreateUserFolderAsWritten).
- CreateUserFolder (ServerFileManager.FileManager.CreateUserFolder): follows CreateUserFolderResult, so the same differences apply; the method never throws.
- ComputeFolder: follows CreateUserFolderResult; the exception as written is in ComputeFolderAsWritten only.
- SignUpResult (ServerFileManager.SignUpResult): corrected signUp. A login with NUL is refused with the folder message and rolled back. As written the exception escapes after the credential was stored, so the login stays registered without a folder (NulLoginKeptWithoutFolder).
- SignUpRolledBack: proves the clean rollback of the corrected signUp, which covers a login with NUL. As written that login is not rolled back (SignUpAsWritten, NulLoginKeptWithoutFolder).
- SignUpSucceeds: states the corrected condition, a plain login. As written ".", "x/." and "a/b" also succeed, and a login with NUL throws (SignUpAsWritten).
- SignUp (ServerFileManager.FileManager.SignUp): follows the corrected SignUpResult. The method never throws and always rolls back; the exception and the missing rollback as written are in SignUpAsWritten only.
- RelativizeUnder: covers only a base that is a prefix and has no "." or "..". Paths.Relativize is the general relativize, with the normalisation of dotted paths, and it is what the client and the server use.
- ExpandHomeUnderHome: keeps the names after "~" only for save paths without "." or "..". Relativize normalises dotted paths first, and ExpandHomeNormalizes states that case.
- Paths.Relativize: follows relativize on a Unix file system (JDK 9 and later). Other file systems are left out.
- ClientCommands.CredentialsRequest: the client's SignUpHandler and SignInHandler (client/src/main/java/cloud/storage/client/SignUpHandler.java:28, client/src/main/java/cloud/storage/client/SignInHandler.java:36) write the request without a flush. The model treats it as sent and its promise as completed, so the stall that follows (no next read, nothing reaches the server) is not modelled.
- ServerHandlers.HandleRequest: the reply to a command without a handler is written without a flush (server/src/main/java/cloud/storage/server/RequestHandler.java:47). The model treats it as sent, though it waits for the connection's next flush.
- ServerHandlers.HandleUpload: an IOException while closing the upload's input stream is answered "Failed to upload a file." (server/src/main/java/cloud/storage/server/UploadHandler.java:51-53). Closing the stream is not modelled, so neither is that reply.
- The server's SignUpHandler, SignInHandler, SignOutHandler and Server import the FileManager of the earlier revision (server/src/main/java/cloud/storage/server/SignUpHandler.java:8, server/src/main/java/cloud/storage/server/SignInHandler.java:8, server/src/main/java/cloud/storage/server/SignOutHandler.java:6, server/src/main/java/cloud/storage/server/Server.java:3). RequestHandler, UploadHandler, DownloadHandler and MoveHandler import the server one. The model wires every handler to the server revision, ServerFileManager, and models the earlier revision on its own, as EarlyFileManager.
- Java int overflow is left out. Lengths are unbounded integers. The members that build arrays require the sizes to fit an int: Frames.Fits for packets, UserDataCodec.Encodable for user data, SignInResponseCodec.Encodable for responses. A getLength() that wraps around, and the negative array size it would give, are not modelled.

## Findings

| source | as written | input that shows it | evidently intended | confidence | as-written member | corrected member |
|---|---|---|---|---|---|---|
| server/src/main/java/cloud/storage/server/file/manager/FileManager.java:156 | the folder check only asks that the normalised folder start with the root | login "." gets the server root as its folder; login "x/." gets the folder of "x" | each login gets its own folder strictly under the root | not executed | ServerFileManager.FolderCheckAsWrittenLeaks | ServerFileManager.FoldersDisjoint |
| server/src/main/java/cloud/storage/server/file/manager/FileManager.java:156 | the same check lets a login name a folder inside another user's | login "a/b" while "a" is registered: its folder is made inside a's folder, so "a" reaches its files | each login gets its own folder, disjoint from every other | not executed | ServerFileManager.NestedLoginInsideAnother | ServerFileManager.FoldersDisjoint |
| server/src/main/java/cloud/storage/server/file/manager/FileManager.java:163 | only a SecurityException is caught, after the credential was stored at line 88 | a new login holding NUL: toPath() throws InvalidPathException, the login stays registered with no folder, and the connection closes | the login is refused and its credential removed | not executed | ServerFileManager.NulLoginKeptWithoutFolder | ServerFileManager.SignUpRolledBack |
| client/src/main/java/cloud/storage/client/ClientHandler.java:174-179 | after a failed command the listener removes "commandHandler" even when no handler was added, which throws before sendCommand | an empty line, an unknown command or "message" | the next line is read after every failure | not executed | ClientLoop.BlankLineStalls | ClientLoop.KeepsReading |
| client/src/main/java/cloud/storage/client/ClientHandler.java:91-94 | "help" prints help and returns without scheduling the next read | the line "help" | help is printed and the next line is read | not executed | ClientLoop.HelpStalls | ClientLoop.KeepsReading |
| client/src/main/java/cloud/storage/client/UploadHandler.java:56 | the body sent is byteBuf.array(), the whole backing array, padded with zeros past the bytes written | local file of 10 bytes uploaded as "a": 64-byte body, 59 bytes stored | the body is exactly the path field and the file's content | not executed | Exchange.UploadAsWrittenCorrupts | Exchange.UploadArrives |
