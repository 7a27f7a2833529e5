# Syndie shared archive index, in Dafny

A Syndie archive server publishes an index of what it holds, the *shared
archive*. Clients read that index and then decide two things: which channels and
messages to fetch from the archive (a pull), and which of their own to send to it
(a push). This project models `SharedArchive` and proves properties of the model.
It covers:

- the three record kinds of the index, with their getters and setters:
  - a channel descriptor: scope hash, version and flags;
  - a message descriptor: id, author and target channel indices, and flags holding
    a size class;
  - the archive's "about" summary: flags holding a maximum message size, a
    republish period and a hashcash threshold, the admin channel index, and the
    alternate archive URIs;
- the byte layout of the index, which `write` produces and `read` consumes;
- the queries on the index: counts, `getChannel`, `isKnown`, `getRefreshable`;
- the pull selection `selectURIsToPull`, under a `PullStrategy`;
- the push selection `selectURIsToPush`, which runs `scheduleNew` and then
  `resolveDependencies`, under a `PushStrategy`.

The project is organised in modules:

| module | file | contents |
|---|---|---|
| `Wire` | `wire.dfy` | fixed-width big-endian fields (`DataHelper.writeLong`/`readLong`), Java `int`/`long` wrap-around and casts, Java division |
| `Bits` | `bits.dfy` | powers of two, floor log2, flag bits on a `bv32` word |
| `Descriptors` | `descriptors.dfy` | `ChannelRec`, `MessageRec` and `AboutRec` as values: flag getters and setters, and the coded fields |
| `Codec` | `codec.dfy` | encoders and decoders for each record and for the whole index (`Manifest`), and their round trips |
| `Records` | `records.dfy` | the mutable `Channel`, `Message` and `About` classes; each method is specified by what it does to `Value()` |
| `Index` | `index.dfy` | `getChannel`, `isKnown`, the new-record counts and `getRefreshable`, as functions of a `Manifest` |
| `Pull` | `pull.dfy` | the pull strategy and the pull selection as a specification, with its properties |
| `Push` | `push.dfy` | the push inventory, `scheduleNew` as a run over steps, `resolveDependencies`, and their properties |
| `Archive` | `archive.dfy` | the mutable `SharedArchive` class; each loop is proved against the matching function of `Codec`, `Index`, `Pull` or `Push` |

Outside facts the source consults are inputs to the model:

- The clock is a parameter: `now` in `GetRefreshable` and in `PushEnv`.
- The client's database becomes oracles:
  - `LocalView` gives the channel version and local id for a scope;
  - `PushEnv` gives the scope for a local channel id, and whether the client's
    archive directory holds a channel's metadata.
- The client's directories become a push inventory, a sequence of `LocalChannel`
  values:
  - one per channel directory, in listing order;
  - each holds its messages in listing order, with their length, privacy, author,
    target and import date.
- The iteration order of the dependency map is arbitrary, because the map is a
  `HashMap`. It becomes a ghost `order` that `ResolveDependencies` returns. The
  properties of the push hold whatever that order is.

Where the code and its comments or documentation differ, the model follows the
code:

- The "no admin channel" value is 2^31-1, not the 2^32-1 the field comment gives.
- Under PIR (the `includeDupForPIR` setting), only records flagged new skip the
  other filters.
- Outside PIR, a message flagged new is skipped unless
  `includeRecentMessagesOnly` is set. So a default pull of an archive with one
  updated channel and one new message asks for the channel only (`PullScenario`).
- In `resolveDependencies`, a dependency on a channel the archive does *not* list
  keeps the message and adds nothing. The closure property (`PushClosure`) is
  stated only for channels the archive lists. When the archive wants known
  channels only, the push still fails closed in a weaker sense: it adds no
  channel and sends no scope the archive does not list (`PushKnownOnly`).
- The field comment says a message's target index is -1 when the target is the
  author's own channel. The code gives -1 no such meaning: `write` refuses a
  negative index, and the pull selection uses the target index as an array
  index. The model requires every target index in range for the pull (`Indexed`).

## Model

| member | source | states |
|---|---|---|
| Wire.WriteLong | src/syndie/db/SharedArchive.java:121-128 | A w-byte field can be written exactly when 0 <= v < 256^w; it is then w bytes whose unsigned value is v; otherwise it fails as out of range |
| Wire.ReadLong | src/syndie/db/SharedArchive.java:130-144 | A w-byte field reads successfully exactly when w bytes remain; the value is below 256^w and the stream advances by w bytes; otherwise it fails as a short field |
| Wire.ReadWriteLong | src/syndie/db/SharedArchive.java:121-144 | Reading back a written field gives the value and leaves whatever followed it |
| Wire.ReadLongExtends | src/syndie/db/SharedArchive.java:130-144 | Reading a field looks only at its own bytes; more input behind it only lengthens the rest |
| Wire.UnsignedBigEndian | src/syndie/db/SharedArchive.java:121-144 | The big-endian digits of v < 256^w have unsigned value v |
| Wire.BigEndianUnsigned | src/syndie/db/SharedArchive.java:121-144 | Every w-byte string is the encoding of its own unsigned value |
| Wire.WrapInt | src/syndie/db/SharedArchive.java:570 | Java int arithmetic: the result agrees with x mod 2^32 and equals x when x fits an int |
| Wire.WrapLong | src/syndie/db/SharedArchive.java:40 | Java long arithmetic: the result agrees with x mod 2^64 and equals x when x fits a long |
| Wire.LongOfUnsigned | src/syndie/db/SharedArchive.java:222 | A u64 read as a Java long: unchanged up to LONG_MAX, otherwise less by 2^64 |
| Wire.IntOfUnsigned | src/syndie/db/SharedArchive.java:227-228 | `(int)` of a u32: unchanged up to INT_MAX, otherwise less by 2^32 |
| Wire.JavaDiv | src/syndie/db/SharedArchive.java:731 | Java `/` by a positive divisor truncates toward zero: for a >= 0 the quotient is non-negative and q*b <= a < q*b + b; for a < 0 it is non-positive and q*b - b < a <= q*b |
| Bits.Log2FloorBounds | src/syndie/db/SharedArchive.java:291-298 | The halving count of n >= 1 is floor(log2 n): 2^k <= n < 2^(k+1) |
| Bits.BitLengthBounds | src/syndie/db/SharedArchive.java:192-201 | The number of right shifts that empty n >= 1 is its bit length: 2^(k-1) <= n < 2^k |
| Bits.SetThenHas | src/syndie/db/SharedArchive.java:115 | `(f & ~mask) \| (on ? mask : 0)` makes the flag read `on` |
| Bits.SetKeepsOthers | src/syndie/db/SharedArchive.java:115-119 | Setting one flag leaves every bit outside its mask unchanged |
| Bits.Word16Num16 | src/syndie/db/SharedArchive.java:349 | A flag word below 2^16 survives the round trip through a 2-byte unsigned field |
| Descriptors.ChannelFlagSetter | src/syndie/db/SharedArchive.java:105-119 | Each boolean channel setter makes its getter answer the new value; every other channel flag, the scope and the version are unchanged |
| Descriptors.ChannelFlagsDisjoint | src/syndie/db/SharedArchive.java:81-89 | The five channel flags pairwise share no bit |
| Descriptors.MessageFlagSetter | src/syndie/db/SharedArchive.java:184-208 | Each boolean message setter makes its getter answer the new value; every other flag and the size class are unchanged |
| Descriptors.MessageFlagsDisjoint | src/syndie/db/SharedArchive.java:160-165 | The four message flags pairwise share no bit |
| Descriptors.MessageSizeUntouched | src/syndie/db/SharedArchive.java:160-165 | The boolean message setters never touch the four size bits |
| Descriptors.MessageRec.SizeClass | src/syndie/db/SharedArchive.java:188 | The size class is the low four bits of the flags, so it is below 16 |
| Descriptors.MessageRec.MaxSizeKB | src/syndie/db/SharedArchive.java:188 | `getMaxSizeKB` is a power of two from 4KB to 128MB |
| Descriptors.SizeCount | src/syndie/db/SharedArchive.java:192-200 | The count setSize computes is at most 51 for any long |
| Descriptors.SizeClassBound | src/syndie/db/SharedArchive.java:192-201 | For 0 <= bytes <= LONG_MAX - 1023 (where `bytes + 1023` does not wrap) and when the count fits four bits, setSize stores a class whose `getMaxSizeKB` covers the size in KB and is at most twice it (or 4KB); other flags are kept |
| Descriptors.SizeClassWraps | src/syndie/db/SharedArchive.java:192-201 | Above LONG_MAX - 1023 bytes, `bytes + 1023` wraps negative: the KB count is negative, the class count 0 and `getMaxSizeKB` reads 4KB; other flags are kept |
| Descriptors.WithSizeClass | src/syndie/db/SharedArchive.java:200 | A count below 16 becomes the size class, giving `getMaxSizeKB` = 4 * 2^count; nothing outside the size field changes |
| Descriptors.ClassCoversKB | src/syndie/db/SharedArchive.java:192-199 | 4KB * 2^count exceeds the rounded-up KB size and, for a nonzero count, is at most twice it |
| Descriptors.KBRoundedUpExact | src/syndie/db/SharedArchive.java:193 | For sizes that do not overflow, `(bytes + 1023) / 1024` is the size in KB rounded up |
| Descriptors.SizeClassOverflow | src/syndie/db/SharedArchive.java:192-201 | setSize as written: a 128MB + 1 byte message counts 16, which sets the is-new flag and reads back as a 4KB class |
| Descriptors.SaturatedSizeClassBound | src/syndie/db/SharedArchive.java:192-201 | The corrected setSize never disturbs other flags and covers every size up to 128MB |
| Descriptors.SaturatedAgrees | src/syndie/db/SharedArchive.java:192-201 | The corrected setSize equals setSize as written whenever the count fits four bits |
| Descriptors.AboutRec.HashcashField | src/syndie/db/SharedArchive.java:282 | The hashcash field is bits 6-10, a value below 32 |
| Descriptors.AboutRec.MaxSizeField | src/syndie/db/SharedArchive.java:288 | The maximum-size field is bits 0-3, a value below 16 |
| Descriptors.AboutRec.MaxMessageSize | src/syndie/db/SharedArchive.java:287-290 | `maxMessageSize` is a power of two from 1KB to 32MB |
| Descriptors.AboutRec.FrequencyField | src/syndie/db/SharedArchive.java:301 | The republish field is bits 4-5, a value below 4 |
| Descriptors.AboutRec.PublishRebuildFrequencyHours | src/syndie/db/SharedArchive.java:300-310 | The republish period is 1, 6, 12 or 24 hours |
| Descriptors.JavaShiftOne | src/syndie/db/SharedArchive.java:284 | Java's `1 << n` on an int is 2^(n mod 32) wrapped to an int (so INT_MIN at 31) |
| Descriptors.MaxSizeCount | src/syndie/db/SharedArchive.java:291-296 | The halving count of setMaxMessageSize is at most 30 |
| Descriptors.HashcashCount | src/syndie/db/SharedArchive.java:324-329 | The count of setMinMessageSizeKBRequiringHashcash is at most 25 |
| Descriptors.FrequencyCode | src/syndie/db/SharedArchive.java:315-319 | The period code is below 4 |
| Descriptors.AboutFlagSetter | src/syndie/db/SharedArchive.java:275-279 | Each boolean about setter makes its getter answer the new value; other flags and the three coded fields are unchanged |
| Descriptors.AboutFlagKeepsFields | src/syndie/db/SharedArchive.java:332-346 | The boolean about setters keep the maximum size, the republish period and the hashcash threshold |
| Descriptors.AboutFlagsDisjoint | src/syndie/db/SharedArchive.java:248-252 | The five about flags pairwise share no bit |
| Descriptors.AboutFieldsUntouched | src/syndie/db/SharedArchive.java:248-257 | A boolean about setter leaves the bits of all three coded fields unchanged |
| Descriptors.AboutLayoutDisjoint | src/syndie/db/SharedArchive.java:248-257 | The about summary's flags and coded fields are disjoint and together fill the 16-bit word |
| Descriptors.WithMaxSizeField | src/syndie/db/SharedArchive.java:297 | An exponent below 16 becomes the size field, so `maxMessageSize` = 2^n; no other bit changes |
| Descriptors.WithFrequencyField | src/syndie/db/SharedArchive.java:320 | A code below 4 becomes the republish field; no other bit changes |
| Descriptors.WithHashcashField | src/syndie/db/SharedArchive.java:330 | A count below 32 becomes the hashcash field; no other bit changes |
| Descriptors.MaxMessageSizeIsFloorPow2 | src/syndie/db/SharedArchive.java:287-298 | For 1 <= kb < 2^16, setMaxMessageSize then `maxMessageSize` gives the largest power of two not above kb; no other bit changes |
| Descriptors.MaxMessageSizeOverflow | src/syndie/db/SharedArchive.java:291-298 | setMaxMessageSize as written: 64MB counts 16, which changes the republish period from 1 to 6 hours and reads back as 1KB |
| Descriptors.SaturatedMaxMessageSize | src/syndie/db/SharedArchive.java:287-298 | The corrected setter never touches other bits, never stores more than kb, agrees with the source below 2^16, and stores 32MB from 32MB up |
| Descriptors.SaturatedExponent | src/syndie/db/SharedArchive.java:291-296 | The saturated exponent's power of two is at most kb, and is 2^15 once kb reaches it |
| Descriptors.HashcashThreshold | src/syndie/db/SharedArchive.java:281-331 | For kb >= 32, setMinMessageSizeKBRequiringHashcash then the getter gives the largest power of two not above kb; for kb < 64 it gives 32KB; no other bit changes |
| Descriptors.HashcashStored | src/syndie/db/SharedArchive.java:281-331 | The getter reads back 2^(count + 5) after the setter |
| Descriptors.HashcashExponent | src/syndie/db/SharedArchive.java:323-329 | For kb >= 32, the setter's count plus five is floor(log2 kb) |
| Descriptors.HashcashRoundTrip | src/syndie/db/SharedArchive.java:281-331 | Every power of two from 32KB to 2^30 KB round-trips through the hashcash setter and getter |
| Descriptors.PublishFrequencyChoice | src/syndie/db/SharedArchive.java:300-321 | setPublishRebuildFrequencyHours stores the shortest of 1/6/12/24 hours not below the request (24 beyond that); no other bit changes |
| Descriptors.PublishFrequencyRoundTrip | src/syndie/db/SharedArchive.java:300-321 | Each of 1, 6, 12 and 24 hours round-trips through the setter and getter |
| Codec.WriteFlags8 | src/syndie/db/SharedArchive.java:125 | A 1-byte flag field is written exactly when the flags are below 256 |
| Codec.WriteFlags16 | src/syndie/db/SharedArchive.java:350 | A 2-byte flag field is written exactly when the flags are below 2^16, and holds them |
| Codec.EncodeChannel | src/syndie/db/SharedArchive.java:121-128 | Channel.write succeeds exactly when the channel has a scope and its version and flags fit; the output starts with the scope bytes |
| Codec.DecodeChannel | src/syndie/db/SharedArchive.java:130-144 | Channel.read succeeds exactly when 41 bytes remain; the scope is the first 32; a short scope and a short field fail differently |
| Codec.ChannelRoundTrip | src/syndie/db/SharedArchive.java:121-144 | Reading a written channel gives it back, whatever follows |
| Codec.ChannelCanonical | src/syndie/db/SharedArchive.java:121-144 | A read channel that fits writes back to exactly the bytes it came from |
| Codec.DecodeChannelExtends | src/syndie/db/SharedArchive.java:130-144 | Channel.read looks only at its own 41 bytes |
| Codec.EncodeMessage | src/syndie/db/SharedArchive.java:210-219 | Message.write succeeds exactly when every field fits its width, and writes 17 bytes |
| Codec.DecodeMessage | src/syndie/db/SharedArchive.java:220-233 | Message.read succeeds exactly when 17 bytes remain |
| Codec.MessageRoundTrip | src/syndie/db/SharedArchive.java:210-233 | Reading a written message gives it back, whatever follows |
| Codec.MessageCanonical | src/syndie/db/SharedArchive.java:210-233 | A read message that fits writes back to exactly its bytes |
| Codec.DecodeMessageExtends | src/syndie/db/SharedArchive.java:220-233 | Message.read looks only at its own 17 bytes |
| Codec.EncodeUris | src/syndie/db/SharedArchive.java:351-357 | The URI list is written exactly when every URI fits a 2-byte length |
| Codec.DecodeUris | src/syndie/db/SharedArchive.java:368-381 | Reading n URIs yields n of them, or fails on a short length or a short URI |
| Codec.EncodeAbout | src/syndie/db/SharedArchive.java:348-363 | About.write succeeds exactly when the summary fits its fields |
| Codec.DecodeAbout | src/syndie/db/SharedArchive.java:364-390 | About.read consumes at least 7 bytes, or fails on a short field or URI |
| Codec.UrisRoundTrip | src/syndie/db/SharedArchive.java:351-381 | Reading a written URI list gives it back, whatever follows |
| Codec.EncodeUrisLength | src/syndie/db/SharedArchive.java:351-357 | A written URI list takes two bytes per URI plus the URIs |
| Codec.DecodeUrisExtends | src/syndie/db/SharedArchive.java:368-381 | Reading URIs looks only at their own bytes |
| Codec.AboutRoundTrip | src/syndie/db/SharedArchive.java:348-390 | Reading a written about summary gives it back, whatever follows |
| Codec.DecodeAboutExtends | src/syndie/db/SharedArchive.java:364-390 | About.read looks only at its own bytes |
| Codec.ArrayCount | src/syndie/db/SharedArchive.java:438-446 | `new X[(int)n]` on a u32 count succeeds exactly when the count fits an int |
| Codec.ChannelsRoundTrip | src/syndie/db/SharedArchive.java:421-441 | Reading back a written channel list gives it back |
| Codec.MessagesRoundTrip | src/syndie/db/SharedArchive.java:425-446 | Reading back a written message list gives it back |
| Codec.DecodeChannelsLength | src/syndie/db/SharedArchive.java:438-441 | n channels read successfully exactly when 41n bytes remain, and leave the rest |
| Codec.DecodeMessagesLength | src/syndie/db/SharedArchive.java:443-446 | n messages read successfully exactly when 17n bytes remain, and leave the rest |
| Codec.ChannelSectionRoundTrip | src/syndie/db/SharedArchive.java:421-441 | The counted channel section round-trips |
| Codec.MessageSectionRoundTrip | src/syndie/db/SharedArchive.java:425-446 | The counted message section round-trips |
| Codec.ManifestRoundTrip | src/syndie/db/SharedArchive.java:418-457 | Reading back what SharedArchive.write produced gives the same index, whatever follows |
| Codec.EncodeManifestParts | src/syndie/db/SharedArchive.java:418-432 | The written index is the about record, then the channel section, then the message section |
| Codec.DecodeManifestExtends | src/syndie/db/SharedArchive.java:434-457 | SharedArchive.read looks only at the index's own bytes |
| Codec.ManifestTruncation | src/syndie/db/SharedArchive.java:434-457 | Every strict prefix of a written index fails to read: a cut-off stream never yields a partial index |
| Records.Channel.constructor | src/syndie/db/SharedArchive.java:99-103 | A new channel has no scope, version -1 and no flags |
| Records.Channel.SetScope | src/syndie/db/SharedArchive.java:113 | The scope becomes the hash; nothing else changes |
| Records.Channel.SetVersion | src/syndie/db/SharedArchive.java:114 | The version is replaced; nothing else changes |
| Records.Channel.SetIsNew | src/syndie/db/SharedArchive.java:115 | The is-new flag is set as given (see ChannelFlagSetter) |
| Records.Channel.SetIsPBE | src/syndie/db/SharedArchive.java:116 | The PBE flag is set as given |
| Records.Channel.SetIsPublic | src/syndie/db/SharedArchive.java:117 | The public flag is set as given |
| Records.Channel.SetWantNewMeta | src/syndie/db/SharedArchive.java:118 | The want-new-meta flag is set as given |
| Records.Channel.SetWantNewMsgs | src/syndie/db/SharedArchive.java:119 | The want-new-messages flag is set as given |
| Records.Channel.Write | src/syndie/db/SharedArchive.java:121-128 | The bytes written are those of EncodeChannel, including its failures |
| Records.Channel.Read | src/syndie/db/SharedArchive.java:130-144 | Succeeds exactly when DecodeChannel does, holding the decoded channel; on failure the object is unchanged |
| Records.Message.constructor | src/syndie/db/SharedArchive.java:177-182 | A new message has id, scope and target -1 and no flags |
| Records.Message.SetMessageId | src/syndie/db/SharedArchive.java:202 | The id is replaced; nothing else changes |
| Records.Message.SetScope | src/syndie/db/SharedArchive.java:203 | The author channel index is replaced |
| Records.Message.SetTarget | src/syndie/db/SharedArchive.java:204 | The target channel index is replaced |
| Records.Message.SetIsNew | src/syndie/db/SharedArchive.java:205 | The is-new flag is set as given (see MessageFlagSetter) |
| Records.Message.SetIsPBE | src/syndie/db/SharedArchive.java:206 | The PBE flag is set as given |
| Records.Message.SetIsPrivate | src/syndie/db/SharedArchive.java:207 | The private flag is set as given |
| Records.Message.SetIsPublic | src/syndie/db/SharedArchive.java:208 | The public flag is set as given |
| Records.Message.SetSize | src/syndie/db/SharedArchive.java:192-201 | The loop's count is ORed into the cleared size field, as written (see SizeClassBound, SizeClassOverflow) |
| Records.Message.Write | src/syndie/db/SharedArchive.java:210-219 | The bytes written are those of EncodeMessage |
| Records.Message.Read | src/syndie/db/SharedArchive.java:220-233 | Succeeds exactly when DecodeMessage does; on failure the object is unchanged |
| Records.About.constructor | src/syndie/db/SharedArchive.java:269-273 | A new summary has no flags, no admin channel (2^31-1) and no URIs |
| Records.About.SetAdminChannel | src/syndie/db/SharedArchive.java:313 | The admin channel index is replaced |
| Records.About.SetAlternativeArchives | src/syndie/db/SharedArchive.java:322 | The URI list is replaced |
| Records.About.SetPostingRequiresPassphrase | src/syndie/db/SharedArchive.java:332-334 | The passphrase flag is set as given (see AboutFlagSetter) |
| Records.About.SetWantPrivate | src/syndie/db/SharedArchive.java:335-337 | The want-private flag is set as given |
| Records.About.SetWantPBE | src/syndie/db/SharedArchive.java:338-340 | The want-PBE flag is set as given |
| Records.About.SetWantKnownChannelsOnly | src/syndie/db/SharedArchive.java:341-343 | The known-only flag is set as given |
| Records.About.SetWantRecentOnly | src/syndie/db/SharedArchive.java:344-346 | The recent-only flag is set as given |
| Records.About.SetMaxMessageSize | src/syndie/db/SharedArchive.java:291-298 | The halving loop's count is ORed into the cleared size field, as written (see MaxMessageSizeIsFloorPow2) |
| Records.About.SetPublishRebuildFrequencyHours | src/syndie/db/SharedArchive.java:314-321 | The period code is stored (see PublishFrequencyChoice) |
| Records.About.SetMinMessageSizeKBRequiringHashcash | src/syndie/db/SharedArchive.java:323-331 | The halving loop's count is stored at bit 6 (see HashcashThreshold) |
| Records.About.Write | src/syndie/db/SharedArchive.java:348-363 | The bytes written are those of EncodeAbout; the URI loop is proved against the list encoder |
| Records.About.Read | src/syndie/db/SharedArchive.java:364-390 | Succeeds exactly when DecodeAbout does; on failure the object is unchanged |
| Records.AboutViaUris | src/syndie/db/SharedArchive.java:364-390 | Past its three fixed fields, About.read succeeds or fails with its URI list |
| Index.FirstWithScope | src/syndie/db/SharedArchive.java:61-67 | The index found is that of the first channel with the scope; none is found only when no channel has it |
| Index.NewChannelCountBounds | src/syndie/db/SharedArchive.java:45-51 | The new-channel count is at most the total; it is 0 exactly when none is new, and the total exactly when all are |
| Index.NewMessageCountBounds | src/syndie/db/SharedArchive.java:52-58 | The same for messages |
| Index.RefreshableLater | src/syndie/db/SharedArchive.java:39-41 | Once refreshable, an index stays refreshable as the clock moves on |
| Index.RefreshableAfterPeriod | src/syndie/db/SharedArchive.java:39-41 | Unless the load time is within a day of LONG_MAX, refreshable exactly when more than the rebuild period has passed: never within an hour, always after a day |
| Pull.ChannelPassMembers | src/syndie/db/SharedArchive.java:544-558 | The channel pass yields scope URIs only, exactly those of the channels it picks |
| Pull.PullChannelFilter | src/syndie/db/SharedArchive.java:544-558 | Outside PIR, a channel's scope is asked for exactly when some channel with that scope is newer than the local copy and, under known-only, the client holds the channel |
| Pull.PullChannelsUnderPIR | src/syndie/db/SharedArchive.java:546-547 | Under PIR every channel flagged new is asked for |
| Pull.AddAbsentFacts | src/syndie/db/SharedArchive.java:565-568 | `if (!uris.contains(h)) uris.add(h)` leaves h in the list and only ever appends h when it was absent |
| Pull.AdvanceTakes | src/syndie/db/SharedArchive.java:559-597 | One iteration appends the author and target scopes (if absent), then the message URI, when the message is taken; otherwise nothing |
| Pull.PullKeepsChannelPass | src/syndie/db/SharedArchive.java:541-600 | The message pass only appends: the channel pass is a prefix of the result |
| Pull.PullDependenciesFirst | src/syndie/db/SharedArchive.java:536-600 | Every message URI is preceded by its author's and target's scope URIs |
| Pull.PullMessageUrisPicked | src/syndie/db/SharedArchive.java:559-597 | Every message URI in the result belongs to a recorded pick |
| Pull.PullNoRepeatedScopes | src/syndie/db/SharedArchive.java:565-568 | The message pass never adds a scope URI already in the list |
| Pull.PullFilters | src/syndie/db/SharedArchive.java:562-586 | Every picked message is admitted by PIR (new under PIR) or by every filter: size, PBE, private, recent and known-only |
| Pull.PullNewOnlyIfRecent | src/syndie/db/SharedArchive.java:578-579 | Outside PIR, a picked message flagged new implies recent messages are wanted |
| Pull.PullPicksIncreasing | src/syndie/db/SharedArchive.java:559 | Picks are in index order, so no message is asked for twice |
| Pull.PullNewUnderPIR | src/syndie/db/SharedArchive.java:562-571 | Under PIR every message flagged new is picked |
| Pull.PullAdmittedPicked | src/syndie/db/SharedArchive.java:559-597 | Without a total cap, every admitted message (new under PIR, or passing every filter) is picked and its URI is in the result: with PullFilters, selection is exactly admission |
| Pull.PickedKBOfOffers | src/syndie/db/SharedArchive.java:570-594 | The KB the picks claim through their offers equals their advertised maximum sizes |
| Pull.PullSizeCap | src/syndie/db/SharedArchive.java:585-594 | Without PIR and with a total cap, the running total is the sum of the picked messages' maximum sizes and never exceeds the cap |
| Pull.PullScenario | src/syndie/db/SharedArchive.java:541-600 | A default pull over one updated channel and one new message asks for the channel's scope only |
| Push.Dependency | src/syndie/db/SharedArchive.java:761-769 | A recorded dependency is always a scope URI |
| Push.ChannelStepFacts | src/syndie/db/SharedArchive.java:694-716 | A directory has steps only if it proceeds; an announcement comes first, and only when the metadata is due and present |
| Push.ApplyFacts | src/syndie/db/SharedArchive.java:707-769 | A step appends at most one entry; a taken message adds its size and records its dependency |
| Push.RunOrigin | src/syndie/db/SharedArchive.java:694-771 | Each listed entry was added by an announcement of its scope, or by a message step that passed the filters |
| Push.RunOriginIncreasing | src/syndie/db/SharedArchive.java:694-771 | The list is in step order |
| Push.RunDeps | src/syndie/db/SharedArchive.java:757-769 | Each recorded dependency is of a listed message and was recorded by a taken message step |
| Push.RunSize | src/syndie/db/SharedArchive.java:750-757 | With a total cap, the running total is the sum of the listed messages' sizes and at most the cap |
| Push.PushMessageEligible | src/syndie/db/SharedArchive.java:694-771 | Every listed message comes from a directory that proceeds and passes every filter: parsed id, unknown to the archive, size limits, privacy, recency |
| Push.PushScopeAnnounced | src/syndie/db/SharedArchive.java:701-712 | Every listed scope is of a directory that proceeds, whose metadata the archive lacks or holds older, and that has its metadata file |
| Push.RunKeepsStep | src/syndie/db/SharedArchive.java:694-771 | An announced scope stays in the list, and so does an eligible message's URI when there is no total cap |
| Push.PushEligibleListed | src/syndie/db/SharedArchive.java:723-760 | Without a total cap, every eligible message of a directory that proceeds is listed: with PushMessageEligible, listing is exactly eligibility |
| Push.PushDueScopeListed | src/syndie/db/SharedArchive.java:701-712 | Every directory that proceeds and whose metadata is due has its scope listed: with PushScopeAnnounced, the scopes listed are exactly those |
| Push.PushSizeCap | src/syndie/db/SharedArchive.java:750-757 | With a total cap, the total of scheduleNew is the sum of the listed messages' sizes and at most the cap |
| Push.PushSizeIsKB | src/syndie/db/SharedArchive.java:731 | A message's size is its length in KB, rounded up as Java computes it |
| Push.PushDependency | src/syndie/db/SharedArchive.java:757-769 | Every dependency maps a listed message to the scope of its target, else its author, as the source chooses |
| Push.PushNoRepeats | src/syndie/db/SharedArchive.java:694-771 | With distinct directory scopes and distinct parsed message ids, scheduleNew lists nothing twice |
| Push.RemoveFirstCount | src/syndie/db/SharedArchive.java:668 | `List.remove` removes one occurrence of h when there is one, and nothing else |
| Push.ResolveOneCount | src/syndie/db/SharedArchive.java:657-681 | One entry removes at most its own message, once, and adds its channel only when absent |
| Push.ResolveRemoves | src/syndie/db/SharedArchive.java:656-682 | resolveDependencies never adds a message URI, and removes one only if it has a dependency, and then once |
| Push.ResolveAdds | src/syndie/db/SharedArchive.java:656-682 | resolveDependencies never drops a scope URI, and adds one only as the dependency of some message, where it was absent |
| Push.ResolveClosure | src/syndie/db/SharedArchive.java:656-682 | For an entry whose channel the archive lists, the result holds the channel's URI or lacks the message |
| Push.ResolveOneKeeps | src/syndie/db/SharedArchive.java:657-681 | A later entry keeps a scope already present and does not bring back a removed message |
| Push.ResolveOneSettles | src/syndie/db/SharedArchive.java:657-681 | Visiting an entry settles it when its channel is listed and its message occurs at most once |
| Push.PushDepsShaped | src/syndie/db/SharedArchive.java:761-769 | The dependency map leads from message URIs to scope URIs |
| Push.PushClosure | src/syndie/db/SharedArchive.java:642-682 | After selectURIsToPush, a message depending on a channel the archive lists is sent with that channel's URI or not at all, whatever the map's order |
| Push.KnownOnlyNeverAdds | src/syndie/db/SharedArchive.java:657-681 | When the archive wants known channels only, resolution adds no entry: every count stays or drops |
| Push.PushKnownOnly | src/syndie/db/SharedArchive.java:642-682 | When the archive wants known channels only, selectURIsToPush sends nothing scheduleNew did not list, and every scope it sends is of a channel the archive lists |
| Push.NoRepeatsCount | src/syndie/db/SharedArchive.java:694-771 | With a distinct inventory, every entry occurs at most once |
| Push.PushResolveChanges | src/syndie/db/SharedArchive.java:642-682 | resolveDependencies only adds scope URIs and only removes messages that have dependencies, each at most once |
| Archive.SharedArchive.constructor | src/syndie/db/SharedArchive.java:27-30 | A new archive holds no records and remembers the clock |
| Archive.SharedArchive.SetChannels | src/syndie/db/SharedArchive.java:34 | The channels are replaced; nothing else changes |
| Archive.SharedArchive.SetMessages | src/syndie/db/SharedArchive.java:35 | The messages are replaced; nothing else changes |
| Archive.SharedArchive.SetAbout | src/syndie/db/SharedArchive.java:36 | The summary is replaced; nothing else changes |
| Archive.SharedArchive.GetRefreshable | src/syndie/db/SharedArchive.java:39-41 | Answers Refreshable for the load time and the clock (see RefreshableAfterPeriod) |
| Archive.SharedArchive.CountTotalChannels | src/syndie/db/SharedArchive.java:43 | The number of channels |
| Archive.SharedArchive.CountTotalMessages | src/syndie/db/SharedArchive.java:44 | The number of messages |
| Archive.SharedArchive.CountNewChannels | src/syndie/db/SharedArchive.java:45-51 | The loop counts the channels flagged new (see NewChannelCountBounds) |
| Archive.SharedArchive.CountNewMessages | src/syndie/db/SharedArchive.java:52-58 | The loop counts the messages flagged new (see NewMessageCountBounds) |
| Archive.SharedArchive.GetChannel | src/syndie/db/SharedArchive.java:61-67 | The linear search returns the first channel with the scope, or none (see FirstWithScope) |
| Archive.SharedArchive.IsKnown | src/syndie/db/SharedArchive.java:69-78 | True exactly when a message with the id has an author channel with the scope |
| Archive.SharedArchive.Write | src/syndie/db/SharedArchive.java:418-432 | The bytes written are EncodeManifest of the contents (see ManifestRoundTrip, ManifestTruncation) |
| Archive.SharedArchive.Read | src/syndie/db/SharedArchive.java:434-457 | Succeeds exactly when DecodeManifest does and then holds the decoded index; a failed read leaves the object as it was |
| Archive.SharedArchive.SelectURIsToPull | src/syndie/db/SharedArchive.java:541-600 | The two loops compute Pull.SelectURIsToPull, so every Pull property holds of the result |
| Archive.SharedArchive.PullChannels | src/syndie/db/SharedArchive.java:544-558 | The channel loop computes the channel pass |
| Archive.SharedArchive.PullMessage | src/syndie/db/SharedArchive.java:560-597 | One message iteration computes Advance on the message's offer |
| Archive.SharedArchive.PullFilters | src/syndie/db/SharedArchive.java:572-583 | The filters, applied in order, answer PassesFilters |
| Archive.SharedArchive.ScheduleNew | src/syndie/db/SharedArchive.java:684-772 | The two nested loops compute Push.ScheduleNew's list and dependencies |
| Archive.SharedArchive.ScheduleChannel | src/syndie/db/SharedArchive.java:694-771 | One directory iteration runs the directory's steps |
| Archive.SharedArchive.ScheduleMessages | src/syndie/db/SharedArchive.java:723-770 | The message loop runs the directory's message steps |
| Archive.SharedArchive.ScheduleMessage | src/syndie/db/SharedArchive.java:724-769 | One message iteration applies its step |
| Archive.SharedArchive.PushFilters | src/syndie/db/SharedArchive.java:725-748 | The filters, applied in order, answer Eligible |
| Archive.SharedArchive.ResolveDependencies | src/syndie/db/SharedArchive.java:656-682 | Visits every map entry once, in some order, and computes Resolve in that order |
| Archive.SharedArchive.SelectURIsToPush | src/syndie/db/SharedArchive.java:642-654 | scheduleNew over the outbound or the archive inventory, then resolveDependencies: Push.SelectURIsToPush for the order it visits |
| Archive.ReadChannels | src/syndie/db/SharedArchive.java:438-441 | The channel loop of read computes DecodeChannels |
| Archive.ReadMessages | src/syndie/db/SharedArchive.java:443-446 | The message loop of read computes DecodeMessages |

## Left out

- URIs: SyndieURI, its parsing and its text form are not part of this model.
  - An alternate-archive URI is its UTF-8 bytes.
  - A selection returns `Handle` values (a scope URI, or a scope plus message id) instead of URIs.
  - The "Invalid archive URI" failure of About.read cannot arise.
- DataHelper is not part of this model. `Wire` restates its fixed-width reads and
  writes; `DataHelper.eq` is sequence equality.
- The input and output streams are byte sequences.
  - A failed `write` yields an error, not the partial output already sent.
  - The "Corrupt archive" wrapping of a read error is the error itself.
- The clock (`System.currentTimeMillis`) is a parameter: the `now` given to
  `GetRefreshable` and `PushEnv`, and the constructor's `now`.
- DBClient is not part of this model. What it answers is fixed per call:
  - `LocalView` gives channel versions and ids;
  - `PushEnv` gives the scope for a channel id and the presence of metadata in the
    client's archive directory;
  - the privacy, author, target and import date of each message are fields of
    `LocalMessage`.
- The filesystem is not part of this model.
  - Directory listings, file lengths and `meta` file presence are fields of the
    `LocalChannel` and `LocalMessage` inventory.
  - `SharedArchiveBuilder.sortFiles`, `getMessageId` and `PERIOD_NEW` are not part
    of this model. The listing order is the inventory's order, the parsed id is a
    field, and the period is `PushEnv.periodNew`.
- `ui.debugMessage`, the `toString` methods, and the hashcash fields of
  `PushStrategy` (never read by the selection) are omitted.
- Null arrays and null fields are not modelled. A missing channel scope is
  `None` and makes `write` fail; the URI list is never null.
- Every message's author and target index must name a channel (`Indexed`).
  - This is a precondition of the pull selection only, which reads both
    indices and would throw on an out-of-range one.
  - The push selection reads only the author index, so it needs only that one
    in range (`ScopesIndexed`).
  - `IsKnown` needs it only for messages with the requested id.
  - A target of -1 (the constructor's value, documented as "the same as the
    scope") is outside `Indexed`: the pull selection looks it up as a channel
    index and would throw, and `write` refuses it as a negative field.
- The archive object holds descriptor values (`ChannelRec`, `MessageRec`,
  `AboutRec`), not references to `Channel`/`Message`/`About` objects. Aliasing
  between the archive and a descriptor object that is later changed is not
  modelled.
- Archive.SharedArchive.ResolveDependencies: the order of the dependency map is
  returned as a ghost value, and the result is stated for that order, not for a
  particular hash order.
- Push.PushNoRepeats, Push.PushClosure: these assume distinct directory scopes and,
  per directory, distinct ids among the file names that parse
  (`DistinctInventory`). Distinct directory and file names give this only if
  decoding a directory name to a scope and `getMessageId` are injective, which
  is a property of code outside this model. Without it, a duplicate message
  could be removed only once.
- Descriptors.SizeClassBound: holds only for 0 <= bytes <= LONG_MAX - 1023.
  Above that, `bytes + 1023` wraps to a negative long, the count is 0 and the
  class reads 4KB however large the size (`SizeClassWraps`).
- Push.Takes: the running total of scheduleNew is an unbounded integer, not a
  Java long. It only matters under a positive cap, where it stays below that
  `int` cap.

## Findings

| source | as written | input that shows it | evidently intended | confidence | as-written member | corrected member |
|---|---|---|---|---|---|---|
| src/syndie/db/SharedArchive.java:192-201 | setSize ORs its count into the flags without limiting it to the four-bit size field | a message of 128MB + 1 byte (count 16): the is-new flag becomes set and `getMaxSizeKB` reads 4KB | the size class saturates at 15, so other flags are untouched and the class still covers the size | not executed | Descriptors.SizeClassOverflow | Descriptors.SaturatedSizeClassBound |
| src/syndie/db/SharedArchive.java:291-298 | setMaxMessageSize ORs its exponent into the flags without limiting it to the four-bit size field | kb = 65536 (64MB, exponent 16): the republish period changes from 1 to 6 hours and `maxMessageSize` reads 1KB | the exponent saturates at 15 (32MB, the documented upper bound), so other fields are untouched | not executed | Descriptors.MaxMessageSizeOverflow | Descriptors.SaturatedMaxMessageSize |

The classes keep the setters as written (`Records.Message.SetSize`,
`Records.About.SetMaxMessageSize`). The corrected setters are
`MessageRec.WithSizeSaturated` and `AboutRec.WithMaxMessageSizeSaturated`. They
agree with the setters as written on every input that fits the field
(`SaturatedAgrees`, `SaturatedMaxMessageSize`).
