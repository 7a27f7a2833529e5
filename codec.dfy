/**
 * The byte layout of an archive index: the about summary, then a u32 count
 * and that many channel descriptors, then a u32 count and that many message
 * descriptors. Every integer is big-endian and unsigned at a fixed width.
 *
 *   channel  = scope(32) version(8) flags(1)
 *   message  = id(8) scopeIndex(4) targetIndex(4) flags(1)
 *   about    = flags(2) adminChannel(4) count(1) { length(2) uri(length) }
 *   manifest = about count(4) channel* count(4) message*
 *
 * Encoders fail where the writer would throw (a value out of range for its
 * width, a channel without a scope); decoders fail where the reader would.
 */
module Codec {
  import opened Wrappers
  import opened Wire
  import opened Bits
  import opened Descriptors

  /** A decoded value and the bytes left behind it. */
  type Decoded<T> = Result<(T, seq<byte>), Fault>

  /** The contents of an archive index. */
  datatype Manifest = Manifest(about: AboutRec, channels: seq<ChannelRec>, messages: seq<MessageRec>)

  const CHANNEL_LENGTH: nat := 41
  const MESSAGE_LENGTH: nat := 17

  // ------------------------------------------------------------ flag words

  /** writeLong(out, 1, flags) for a Java int flag word: only 0..255 fit. */
  function WriteFlags8(f: bv32): (r: Result<seq<byte>, Fault>)
    ensures r.Success? <==> f < 256
    ensures r.Success? ==> |r.value| == 1 && Word(r.value[0]) == f
    ensures r.Failure? ==> r.error == OutOfRange
  {
    if f < 256 then WordNum(f); Success([Num(f)]) else Failure(OutOfRange)
  }

  /** writeLong(out, 2, flags) for a Java int flag word: only 0..65535 fit. */
  function WriteFlags16(f: bv32): (r: Result<seq<byte>, Fault>)
    ensures r.Success? <==> f < 0x1_0000
    ensures r.Success? ==> |r.value| == 2 && Word16(Unsigned(r.value)) == f
    ensures r.Failure? ==> r.error == OutOfRange
  {
    if f < 0x1_0000 then
      Pow256Table();
      Word16Num16(f);
      WriteLong(2, Num16(f))
    else
      Failure(OutOfRange)
  }

  // -------------------------------------------------------------- channels

  /** What Channel.write needs: a scope, a version that fits 8 unsigned bytes, flags that fit 1. */
  predicate ChannelWritable(c: ChannelRec) {
    c.scope.Some? && c.version >= 0 && c.flags < 256
  }

  /** A channel that is written as exactly one 41-byte record. */
  predicate ChannelFits(c: ChannelRec) {
    ChannelWritable(c) && |c.scope.value| == SCOPE_LENGTH
  }

  /** Channel.write: the scope bytes as they are, the version in 8 bytes, the flags in 1. */
  function EncodeChannel(c: ChannelRec): (r: Result<seq<byte>, Fault>)
    ensures r.Success? <==> ChannelWritable(c)
    ensures r.Success? ==> |r.value| == |c.scope.value| + 9 && r.value[..|c.scope.value|] == c.scope.value
    ensures r.Failure? ==> r.error == (if c.scope.None? then NullScope else OutOfRange)
  {
    Pow256Table();
    if c.scope.None? then Failure(NullScope)
    else
      var v :- WriteLong(8, c.version);
      var f :- WriteFlags8(c.flags);
      Success(c.scope.value + v + f)
  }

  /** The channel record at the head of s: scope bytes 0-31, version 32-39 (a Java long), flags 40. */
  function ChannelAt(s: seq<byte>): ChannelRec
    requires |s| >= CHANNEL_LENGTH
  {
    Pow256Table();
    ChannelRec(Some(s[..SCOPE_LENGTH]), LongOfUnsigned(Unsigned(s[SCOPE_LENGTH..SCOPE_LENGTH + 8])), Word(s[40]))
  }

  /** Channel.read: fails on fewer than 32 scope bytes, or on a short version or flags field. */
  function DecodeChannel(s: seq<byte>): (r: Decoded<ChannelRec>)
    ensures r.Success? <==> |s| >= CHANNEL_LENGTH
    ensures r.Success? ==> r.value.1 == s[CHANNEL_LENGTH..] && r.value.0.scope == Some(s[..SCOPE_LENGTH])
    ensures r.Failure? ==> r.error == (if |s| < SCOPE_LENGTH then ShortScope else ShortField)
  {
    if |s| < SCOPE_LENGTH then Failure(ShortScope)
    else if |s| < CHANNEL_LENGTH then Failure(ShortField)
    else Success((ChannelAt(s), s[CHANNEL_LENGTH..]))
  }

  lemma ChannelRoundTrip(c: ChannelRec, t: seq<byte>)
    requires ChannelFits(c)
    ensures EncodeChannel(c).Success? && |EncodeChannel(c).value| == CHANNEL_LENGTH
    ensures DecodeChannel(EncodeChannel(c).value + t) == Success((c, t))
  {
    Pow256Table();
    var v := WriteLong(8, c.version).value;
    var f := WriteFlags8(c.flags).value;
    var s := EncodeChannel(c).value + t;
    assert s == c.scope.value + v + f + t;
    assert s[..SCOPE_LENGTH] == c.scope.value;
    assert s[SCOPE_LENGTH..SCOPE_LENGTH + 8] == v;
    assert s[40] == f[0];
    assert s[CHANNEL_LENGTH..] == t;
  }

  /** A decoded channel that fits re-encodes to exactly the bytes it came from. */
  lemma ChannelCanonical(s: seq<byte>)
    requires DecodeChannel(s).Success? && ChannelFits(DecodeChannel(s).value.0)
    ensures EncodeChannel(DecodeChannel(s).value.0) == Success(s[..CHANNEL_LENGTH])
  {
    var c := DecodeChannel(s).value.0;
    Pow256Table();
    var vs, fs := s[SCOPE_LENGTH..SCOPE_LENGTH + 8], s[SCOPE_LENGTH + 8..CHANNEL_LENGTH];
    BigEndianUnsigned(vs);
    BigEndianUnsigned(fs);
    NumWord(s[40]);
    assert fs == [s[40]] && Unsigned(fs) == s[40];
    assert s[..CHANNEL_LENGTH] == s[..SCOPE_LENGTH] + vs + fs;
  }

  lemma DecodeChannelExtends(s: seq<byte>, t: seq<byte>)
    requires DecodeChannel(s).Success?
    ensures DecodeChannel(s + t) == Success((DecodeChannel(s).value.0, DecodeChannel(s).value.1 + t))
  {
    assert (s + t)[..SCOPE_LENGTH] == s[..SCOPE_LENGTH];
    assert (s + t)[SCOPE_LENGTH..SCOPE_LENGTH + 8] == s[SCOPE_LENGTH..SCOPE_LENGTH + 8];
    assert (s + t)[CHANNEL_LENGTH..] == s[CHANNEL_LENGTH..] + t;
  }

  // -------------------------------------------------------------- messages

  predicate MessageFits(m: MessageRec) {
    m.messageId >= 0 && m.scopeIndex >= 0 && m.targetIndex >= 0 && m.flags < 256
  }

  /** Message.write: id in 8 bytes, scope and target indices in 4 each, flags in 1. */
  function EncodeMessage(m: MessageRec): (r: Result<seq<byte>, Fault>)
    ensures r.Success? <==> MessageFits(m)
    ensures r.Success? ==> |r.value| == MESSAGE_LENGTH
    ensures r.Failure? ==> r.error == OutOfRange
  {
    Pow256Table();
    var id :- WriteLong(8, m.messageId);
    var sc :- WriteLong(4, m.scopeIndex);
    var tg :- WriteLong(4, m.targetIndex);
    var f :- WriteFlags8(m.flags);
    Success(id + sc + tg + f)
  }

  /** The message record at the head of s: id 0-7 (a Java long), scope 8-11 and target 12-15 (Java ints), flags 16. */
  function MessageAt(s: seq<byte>): MessageRec
    requires |s| >= MESSAGE_LENGTH
  {
    Pow256Table();
    MessageRec(LongOfUnsigned(Unsigned(s[..8])), IntOfUnsigned(Unsigned(s[8..12])),
      IntOfUnsigned(Unsigned(s[12..16])), Word(s[16]))
  }

  /** Message.read: fails when any of its four fields is cut short. */
  function DecodeMessage(s: seq<byte>): (r: Decoded<MessageRec>)
    ensures r.Success? <==> |s| >= MESSAGE_LENGTH
    ensures r.Success? ==> r.value.1 == s[MESSAGE_LENGTH..]
    ensures r.Failure? ==> r.error == ShortField
  {
    if |s| < MESSAGE_LENGTH then Failure(ShortField) else Success((MessageAt(s), s[MESSAGE_LENGTH..]))
  }

  lemma MessageRoundTrip(m: MessageRec, t: seq<byte>)
    requires MessageFits(m)
    ensures EncodeMessage(m).Success?
    ensures DecodeMessage(EncodeMessage(m).value + t) == Success((m, t))
  {
    Pow256Table();
    var id := WriteLong(8, m.messageId).value;
    var sc := WriteLong(4, m.scopeIndex).value;
    var tg := WriteLong(4, m.targetIndex).value;
    var f := WriteFlags8(m.flags).value;
    var s := EncodeMessage(m).value + t;
    assert s == id + sc + tg + f + t;
    assert s[..8] == id;
    assert s[8..12] == sc;
    assert s[12..16] == tg;
    assert s[16] == f[0];
    assert s[MESSAGE_LENGTH..] == t;
  }

  /** A decoded message that fits re-encodes to exactly the bytes it came from. */
  lemma MessageCanonical(s: seq<byte>)
    requires DecodeMessage(s).Success? && MessageFits(DecodeMessage(s).value.0)
    ensures EncodeMessage(DecodeMessage(s).value.0) == Success(s[..MESSAGE_LENGTH])
  {
    var m := DecodeMessage(s).value.0;
    var a, b, c, d := s[..8], s[8..12], s[12..16], s[16..17];
    Pow256Table();
    BigEndianUnsigned(a);
    BigEndianUnsigned(b);
    BigEndianUnsigned(c);
    WordNum(m.flags);
    NumWord(s[16]);
    assert d == [s[16]];
    assert EncodeMessage(m).value == a + b + c + d;
    assert s[..MESSAGE_LENGTH] == a + b + c + d;
  }

  lemma DecodeMessageExtends(s: seq<byte>, t: seq<byte>)
    requires DecodeMessage(s).Success?
    ensures DecodeMessage(s + t) == Success((DecodeMessage(s).value.0, DecodeMessage(s).value.1 + t))
  {
    assert (s + t)[..8] == s[..8];
    assert (s + t)[8..12] == s[8..12];
    assert (s + t)[12..16] == s[12..16];
    assert (s + t)[MESSAGE_LENGTH..] == s[MESSAGE_LENGTH..] + t;
  }

  // ----------------------------------------------------------------- about

  predicate UriFits(u: seq<byte>) {
    |u| < 0x1_0000
  }

  predicate AboutFits(a: AboutRec) {
    a.flags < 0x1_0000 && a.adminChannel >= 0 && |a.archiveUris| < 256
    && forall i :: 0 <= i < |a.archiveUris| ==> UriFits(a.archiveUris[i])
  }

  /** Each URI as a 2-byte length and its bytes, in order. */
  function EncodeUris(us: seq<seq<byte>>): (r: Result<seq<byte>, Fault>)
    ensures r.Success? <==> forall i :: 0 <= i < |us| ==> UriFits(us[i])
    ensures r.Failure? ==> r.error == OutOfRange
  {
    Pow256Table();
    if us == [] then Success([])
    else
      var n :- WriteLong(2, |us[0]|);
      var rest :- EncodeUris(us[1..]);
      assert forall i :: 1 <= i < |us| ==> us[i] == us[1..][i - 1];
      Success(n + us[0] + rest)
  }

  /** The URI list of About.read: n times a 2-byte length and that many bytes. */
  function DecodeUris(n: nat, s: seq<byte>): (r: Decoded<seq<seq<byte>>>)
    ensures r.Success? ==> |r.value.0| == n && |r.value.1| <= |s|
    ensures r.Failure? ==> r.error in {ShortField, ShortUri}
  {
    if n == 0 then Success(([], s))
    else
      var len :- ReadLong(2, s);
      if |len.1| < len.0 then Failure(ShortUri)
      else
        var rest :- DecodeUris(n - 1, len.1[len.0..]);
        Success(([len.1[..len.0]] + rest.0, rest.1))
  }

  /** About.write: flags in 2 bytes, admin channel in 4, the URI count in 1, then the URIs. */
  function EncodeAbout(a: AboutRec): (r: Result<seq<byte>, Fault>)
    ensures r.Success? <==> AboutFits(a)
    ensures r.Failure? ==> r.error == OutOfRange
  {
    Pow256Table();
    var f :- WriteFlags16(a.flags);
    var ad :- WriteLong(4, a.adminChannel);
    var n :- WriteLong(1, |a.archiveUris|);
    var us :- EncodeUris(a.archiveUris);
    Success(f + ad + n + us)
  }

  /** About.read: the flags and admin channel as Java ints, then the counted URIs. */
  function DecodeAbout(s: seq<byte>): (r: Decoded<AboutRec>)
    ensures r.Success? ==> |r.value.1| <= |s| - 7
    ensures r.Failure? ==> r.error in {ShortField, ShortUri}
  {
    Pow256Table();
    var f :- ReadLong(2, s);
    var ad :- ReadLong(4, f.1);
    var n :- ReadLong(1, ad.1);
    var us :- DecodeUris(n.0, n.1);
    Success((AboutRec(Word16(f.0), IntOfUnsigned(ad.0), us.0), us.1))
  }

  /** The encoded length of a URI list: two bytes of length before each URI. */
  function UrisLength(us: seq<seq<byte>>): nat {
    if us == [] then 0 else 2 + |us[0]| + UrisLength(us[1..])
  }

  lemma {:induction false} UrisRoundTrip(us: seq<seq<byte>>, t: seq<byte>)
    requires forall i :: 0 <= i < |us| ==> UriFits(us[i])
    ensures EncodeUris(us).Success?
    ensures DecodeUris(|us|, EncodeUris(us).value + t) == Success((us, t))
  {
    if us != [] {
      assert forall i :: 0 <= i < |us[1..]| ==> us[1..][i] == us[i + 1];
      UrisRoundTrip(us[1..], t);
      UrisTailRoundTrip(us, t);
    } else {
      assert EncodeUris(us).value + t == t;
    }
  }

  lemma UrisTailRoundTrip(us: seq<seq<byte>>, t: seq<byte>)
    requires us != [] && forall i :: 0 <= i < |us| ==> UriFits(us[i])
    requires EncodeUris(us[1..]).Success?
    requires DecodeUris(|us| - 1, EncodeUris(us[1..]).value + t) == Success((us[1..], t))
    ensures EncodeUris(us).Success?
    ensures DecodeUris(|us|, EncodeUris(us).value + t) == Success((us, t))
  {
    UrisConsRoundTrip(us[0], us[1..], t);
    HeadTail(us);
  }

  /** The round trip of a non-empty list, from that of its tail. */
  lemma UrisConsRoundTrip(u: seq<byte>, us: seq<seq<byte>>, t: seq<byte>)
    requires UriFits(u) && EncodeUris(us).Success?
    requires DecodeUris(|us|, EncodeUris(us).value + t) == Success((us, t))
    ensures EncodeUris([u] + us).Success?
    ensures DecodeUris(|us| + 1, EncodeUris([u] + us).value + t) == Success(([u] + us, t))
  {
    var rest := EncodeUris(us).value;
    var l := WriteLong(2, |u|);
    assert ([u] + us)[1..] == us;
    assert forall i :: 0 <= i < |[u] + us| ==> UriFits(([u] + us)[i]);
    EncodeUrisCons([u] + us);
    assert EncodeUris([u] + us).value + t == l.value + u + (rest + t);
    DecodeUrisCons(|us|, u, rest + t);
  }

  lemma {:induction false} EncodeUrisLength(us: seq<seq<byte>>)
    requires forall i :: 0 <= i < |us| ==> UriFits(us[i])
    ensures EncodeUris(us).Success? && |EncodeUris(us).value| == UrisLength(us)
  {
    if us != [] {
      assert forall i :: 0 <= i < |us[1..]| ==> us[1..][i] == us[i + 1];
      EncodeUrisLength(us[1..]);
      EncodeUrisCons(us);
    }
  }

  lemma EncodeUrisCons(us: seq<seq<byte>>)
    requires us != [] && forall i :: 0 <= i < |us| ==> UriFits(us[i])
    ensures WriteLong(2, |us[0]|).Success? && EncodeUris(us[1..]).Success?
    ensures EncodeUris(us) == Success(WriteLong(2, |us[0]|).value + us[0] + EncodeUris(us[1..]).value)
  {
    Pow256Table();
    assert forall i :: 0 <= i < |us[1..]| ==> us[1..][i] == us[i + 1];
  }

  lemma DecodeUrisCons(n: nat, u: seq<byte>, s: seq<byte>)
    requires UriFits(u) && DecodeUris(n, s).Success?
    ensures WriteLong(2, |u|).Success?
    ensures DecodeUris(n + 1, WriteLong(2, |u|).value + u + s)
      == Success(([u] + DecodeUris(n, s).value.0, DecodeUris(n, s).value.1))
  {
    Pow256Table();
    var l := WriteLong(2, |u|).value;
    assert l + u + s == l + (u + s);
    ReadWriteLong(2, |u|, u + s);
    assert (u + s)[..|u|] == u;
    assert (u + s)[|u|..] == s;
  }

  lemma {:induction false} DecodeUrisExtends(n: nat, s: seq<byte>, t: seq<byte>)
    requires DecodeUris(n, s).Success?
    ensures DecodeUris(n, s + t) == Success((DecodeUris(n, s).value.0, DecodeUris(n, s).value.1 + t))
  {
    if n > 0 {
      ReadLongExtends(2, s, t);
      var len := ReadLong(2, s).value;
      assert (len.1 + t)[..len.0] == len.1[..len.0];
      assert (len.1 + t)[len.0..] == len.1[len.0..] + t;
      DecodeUrisExtends(n - 1, len.1[len.0..], t);
    }
  }

  lemma AboutRoundTrip(a: AboutRec, t: seq<byte>)
    requires AboutFits(a)
    ensures EncodeAbout(a).Success? && |EncodeAbout(a).value| == 7 + UrisLength(a.archiveUris)
    ensures DecodeAbout(EncodeAbout(a).value + t) == Success((a, t))
  {
    Pow256Table();
    var f := WriteFlags16(a.flags).value;
    var ad := WriteLong(4, a.adminChannel).value;
    var n := WriteLong(1, |a.archiveUris|).value;
    UrisRoundTrip(a.archiveUris, t);
    EncodeUrisLength(a.archiveUris);
    var us := EncodeUris(a.archiveUris).value;
    assert f + ad + n + us + t == f + (ad + (n + (us + t)));
    ReadWriteLong(2, Unsigned(f), ad + (n + (us + t)));
    ReadWriteLong(4, a.adminChannel, n + (us + t));
    ReadWriteLong(1, |a.archiveUris|, us + t);
  }

  lemma DecodeAboutExtends(s: seq<byte>, t: seq<byte>)
    requires DecodeAbout(s).Success?
    ensures DecodeAbout(s + t) == Success((DecodeAbout(s).value.0, DecodeAbout(s).value.1 + t))
  {
    ReadLongExtends(2, s, t);
    var r1 := ReadLong(2, s).value.1;
    ReadLongExtends(4, r1, t);
    var r2 := ReadLong(4, r1).value.1;
    ReadLongExtends(1, r2, t);
    var n := ReadLong(1, r2).value;
    DecodeUrisExtends(n.0, n.1, t);
  }

  // ------------------------------------------------------------- manifest

  /** Each channel's encoding, in order; the first failure is the result. */
  function EncodeChannels(cs: seq<ChannelRec>): Result<seq<byte>, Fault> {
    if cs == [] then Success([])
    else
      var e :- EncodeChannel(cs[0]);
      var rest :- EncodeChannels(cs[1..]);
      Success(e + rest)
  }

  /** Each message's encoding, in order; the first failure is the result. */
  function EncodeMessages(ms: seq<MessageRec>): Result<seq<byte>, Fault> {
    if ms == [] then Success([])
    else
      var e :- EncodeMessage(ms[0]);
      var rest :- EncodeMessages(ms[1..]);
      Success(e + rest)
  }

  /** n channel descriptors, one after the other. */
  function DecodeChannels(n: nat, s: seq<byte>): Decoded<seq<ChannelRec>> {
    if n == 0 then Success(([], s))
    else
      var c :- DecodeChannel(s);
      var rest :- DecodeChannels(n - 1, c.1);
      Success(([c.0] + rest.0, rest.1))
  }

  /** n message descriptors, one after the other. */
  function DecodeMessages(n: nat, s: seq<byte>): Decoded<seq<MessageRec>> {
    if n == 0 then Success(([], s))
    else
      var m :- DecodeMessage(s);
      var rest :- DecodeMessages(n - 1, m.1);
      Success(([m.0] + rest.0, rest.1))
  }

  /** `new X[(int)n]` for a u32 count: a count that is negative as a Java int is refused. */
  function ArrayCount(n: nat): (r: Result<nat, Fault>)
    requires n < 0x1_0000_0000
    ensures r.Success? <==> n <= INT_MAX
    ensures r.Success? ==> r.value == n
    ensures r.Failure? ==> r.error == NegativeCount
  {
    if IntOfUnsigned(n) < 0 then Failure(NegativeCount) else Success(n)
  }

  predicate ManifestFits(m: Manifest) {
    AboutFits(m.about) && |m.channels| <= INT_MAX && |m.messages| <= INT_MAX
    && (forall i :: 0 <= i < |m.channels| ==> ChannelFits(m.channels[i]))
    && (forall i :: 0 <= i < |m.messages| ==> MessageFits(m.messages[i]))
  }

  /** The channel part of SharedArchive.write: a u32 count, then each channel. */
  function EncodeChannelSection(cs: seq<ChannelRec>): Result<seq<byte>, Fault> {
    Pow256Table();
    var n :- WriteLong(4, |cs|);
    var body :- EncodeChannels(cs);
    Success(n + body)
  }

  /** The message part of SharedArchive.write: a u32 count, then each message. */
  function EncodeMessageSection(ms: seq<MessageRec>): Result<seq<byte>, Fault> {
    Pow256Table();
    var n :- WriteLong(4, |ms|);
    var body :- EncodeMessages(ms);
    Success(n + body)
  }

  /** The channel part of SharedArchive.read: a u32 count, an array of that size, each channel. */
  function DecodeChannelSection(s: seq<byte>): Decoded<seq<ChannelRec>> {
    Pow256Table();
    var n :- ReadLong(4, s);
    var k :- ArrayCount(n.0);
    DecodeChannels(k, n.1)
  }

  /** The message part of SharedArchive.read: a u32 count, an array of that size, each message. */
  function DecodeMessageSection(s: seq<byte>): Decoded<seq<MessageRec>> {
    Pow256Table();
    var n :- ReadLong(4, s);
    var k :- ArrayCount(n.0);
    DecodeMessages(k, n.1)
  }

  /** SharedArchive.write: the about record, then the counted channels, then the counted messages. */
  function EncodeManifest(m: Manifest): Result<seq<byte>, Fault> {
    var a :- EncodeAbout(m.about);
    var cs :- EncodeChannelSection(m.channels);
    var ms :- EncodeMessageSection(m.messages);
    Success(a + cs + ms)
  }

  /** SharedArchive.read: nothing is kept unless every record decodes. */
  function DecodeManifest(s: seq<byte>): Decoded<Manifest> {
    var a :- DecodeAbout(s);
    var cs :- DecodeChannelSection(a.1);
    var ms :- DecodeMessageSection(cs.1);
    Success((Manifest(a.0, cs.0, ms.0), ms.1))
  }

  lemma {:induction false} ChannelsRoundTrip(cs: seq<ChannelRec>, t: seq<byte>)
    requires forall i :: 0 <= i < |cs| ==> ChannelFits(cs[i])
    ensures EncodeChannels(cs).Success?
    ensures DecodeChannels(|cs|, EncodeChannels(cs).value + t) == Success((cs, t))
  {
    if cs == [] {
      assert EncodeChannels(cs).value + t == t;
    } else {
      assert EncodeChannels(cs[1..]).Success? && DecodeChannels(|cs| - 1, EncodeChannels(cs[1..]).value + t) == Success((cs[1..], t)) by {
        assert forall i :: 0 <= i < |cs[1..]| ==> cs[1..][i] == cs[i + 1];
        ChannelsRoundTrip(cs[1..], t);
      }
      ChannelsTailRoundTrip(cs, t);
    }
  }

  lemma ChannelsTailRoundTrip(cs: seq<ChannelRec>, t: seq<byte>)
    requires cs != [] && ChannelFits(cs[0]) && EncodeChannels(cs[1..]).Success?
    requires DecodeChannels(|cs| - 1, EncodeChannels(cs[1..]).value + t) == Success((cs[1..], t))
    ensures EncodeChannels(cs).Success?
    ensures DecodeChannels(|cs|, EncodeChannels(cs).value + t) == Success((cs, t))
  {
    ChannelsConsRoundTrip(cs[0], cs[1..], t);
    HeadTail(cs);
  }

  /** The round trip of a non-empty list, from that of its tail. */
  lemma ChannelsConsRoundTrip(c: ChannelRec, cs: seq<ChannelRec>, t: seq<byte>)
    requires ChannelFits(c) && EncodeChannels(cs).Success?
    requires DecodeChannels(|cs|, EncodeChannels(cs).value + t) == Success((cs, t))
    ensures EncodeChannels([c] + cs).Success?
    ensures DecodeChannels(|cs| + 1, EncodeChannels([c] + cs).value + t) == Success(([c] + cs, t))
  {
    var rest := EncodeChannels(cs).value;
    ChannelRoundTrip(c, rest + t);
    var e := EncodeChannel(c).value;
    EncodeChannelsCons([c] + cs, e, rest);
    Assoc(e, rest, t);
    DecodeChannelsCons(|cs| + 1, e + (rest + t), c, rest + t, cs, t);
  }

  lemma EncodeChannelsCons(cs: seq<ChannelRec>, e: seq<byte>, rest: seq<byte>)
    requires cs != [] && EncodeChannel(cs[0]) == Success(e) && EncodeChannels(cs[1..]) == Success(rest)
    ensures EncodeChannels(cs) == Success(e + rest)
  {
  }

  lemma DecodeChannelsCons(n: nat, s: seq<byte>, c: ChannelRec, s': seq<byte>, cs: seq<ChannelRec>, t: seq<byte>)
    requires n > 0 && DecodeChannel(s) == Success((c, s')) && DecodeChannels(n - 1, s') == Success((cs, t))
    ensures DecodeChannels(n, s) == Success(([c] + cs, t))
  {
  }

  lemma {:induction false} MessagesRoundTrip(ms: seq<MessageRec>, t: seq<byte>)
    requires forall i :: 0 <= i < |ms| ==> MessageFits(ms[i])
    ensures EncodeMessages(ms).Success?
    ensures DecodeMessages(|ms|, EncodeMessages(ms).value + t) == Success((ms, t))
  {
    if ms == [] {
      assert EncodeMessages(ms).value + t == t;
    } else {
      assert EncodeMessages(ms[1..]).Success? && DecodeMessages(|ms| - 1, EncodeMessages(ms[1..]).value + t) == Success((ms[1..], t)) by {
        assert forall i :: 0 <= i < |ms[1..]| ==> ms[1..][i] == ms[i + 1];
        MessagesRoundTrip(ms[1..], t);
      }
      MessagesTailRoundTrip(ms, t);
    }
  }

  lemma MessagesTailRoundTrip(ms: seq<MessageRec>, t: seq<byte>)
    requires ms != [] && MessageFits(ms[0]) && EncodeMessages(ms[1..]).Success?
    requires DecodeMessages(|ms| - 1, EncodeMessages(ms[1..]).value + t) == Success((ms[1..], t))
    ensures EncodeMessages(ms).Success?
    ensures DecodeMessages(|ms|, EncodeMessages(ms).value + t) == Success((ms, t))
  {
    MessagesConsRoundTrip(ms[0], ms[1..], t);
    HeadTail(ms);
  }

  /** The round trip of a non-empty list, from that of its tail. */
  lemma MessagesConsRoundTrip(m: MessageRec, ms: seq<MessageRec>, t: seq<byte>)
    requires MessageFits(m) && EncodeMessages(ms).Success?
    requires DecodeMessages(|ms|, EncodeMessages(ms).value + t) == Success((ms, t))
    ensures EncodeMessages([m] + ms).Success?
    ensures DecodeMessages(|ms| + 1, EncodeMessages([m] + ms).value + t) == Success(([m] + ms, t))
  {
    var rest := EncodeMessages(ms).value;
    MessageRoundTrip(m, rest + t);
    var e := EncodeMessage(m).value;
    EncodeMessagesCons([m] + ms, e, rest);
    Assoc(e, rest, t);
    DecodeMessagesCons(|ms| + 1, e + (rest + t), m, rest + t, ms, t);
  }

  lemma EncodeMessagesCons(ms: seq<MessageRec>, e: seq<byte>, rest: seq<byte>)
    requires ms != [] && EncodeMessage(ms[0]) == Success(e) && EncodeMessages(ms[1..]) == Success(rest)
    ensures EncodeMessages(ms) == Success(e + rest)
  {
  }

  lemma DecodeMessagesCons(n: nat, s: seq<byte>, m: MessageRec, s': seq<byte>, ms: seq<MessageRec>, t: seq<byte>)
    requires n > 0 && DecodeMessage(s) == Success((m, s')) && DecodeMessages(n - 1, s') == Success((ms, t))
    ensures DecodeMessages(n, s) == Success(([m] + ms, t))
  {
  }

  /** Each channel record is read from exactly 41 bytes: n of them need 41 * n, and leave the rest. */
  lemma {:induction false} DecodeChannelsLength(n: nat, s: seq<byte>)
    ensures DecodeChannels(n, s).Success? <==> |s| >= 41 * n
    ensures DecodeChannels(n, s).Success? ==>
      |DecodeChannels(n, s).value.0| == n && DecodeChannels(n, s).value.1 == s[41 * n..]
  {
    if n > 0 && |s| >= 41 {
      DecodeChannelsLength(n - 1, s[41..]);
      if |s| >= 41 * n {
        assert s[41..][41 * (n - 1)..] == s[41 * n..];
      }
    }
  }

  /** Each message record is read from exactly 17 bytes: n of them need 17 * n, and leave the rest. */
  lemma {:induction false} DecodeMessagesLength(n: nat, s: seq<byte>)
    ensures DecodeMessages(n, s).Success? <==> |s| >= 17 * n
    ensures DecodeMessages(n, s).Success? ==>
      |DecodeMessages(n, s).value.0| == n && DecodeMessages(n, s).value.1 == s[17 * n..]
  {
    if n > 0 && |s| >= 17 {
      DecodeMessagesLength(n - 1, s[17..]);
      if |s| >= 17 * n {
        assert s[17..][17 * (n - 1)..] == s[17 * n..];
      }
    }
  }

  lemma ChannelSectionRoundTrip(cs: seq<ChannelRec>, t: seq<byte>)
    requires |cs| <= INT_MAX && forall i :: 0 <= i < |cs| ==> ChannelFits(cs[i])
    ensures EncodeChannelSection(cs).Success?
    ensures DecodeChannelSection(EncodeChannelSection(cs).value + t) == Success((cs, t))
  {
    Pow256Table();
    ChannelsRoundTrip(cs, t);
    var n := WriteLong(4, |cs|).value;
    var body := EncodeChannels(cs).value;
    assert EncodeChannelSection(cs).value + t == n + (body + t);
    ReadWriteLong(4, |cs|, body + t);
  }

  lemma MessageSectionRoundTrip(ms: seq<MessageRec>, t: seq<byte>)
    requires |ms| <= INT_MAX && forall i :: 0 <= i < |ms| ==> MessageFits(ms[i])
    ensures EncodeMessageSection(ms).Success?
    ensures DecodeMessageSection(EncodeMessageSection(ms).value + t) == Success((ms, t))
  {
    Pow256Table();
    MessagesRoundTrip(ms, t);
    var n := WriteLong(4, |ms|).value;
    var body := EncodeMessages(ms).value;
    assert EncodeMessageSection(ms).value + t == n + (body + t);
    ReadWriteLong(4, |ms|, body + t);
  }

  /** Reading back what SharedArchive.write produced gives the same index, whatever follows it. */
  lemma ManifestRoundTrip(m: Manifest, t: seq<byte>)
    requires ManifestFits(m)
    ensures EncodeManifest(m).Success?
    ensures DecodeManifest(EncodeManifest(m).value + t) == Success((m, t))
  {
    var a := EncodeAbout(m.about).value;
    MessageSectionRoundTrip(m.messages, t);
    var ms := EncodeMessageSection(m.messages).value;
    ChannelSectionRoundTrip(m.channels, ms + t);
    var cs := EncodeChannelSection(m.channels).value;
    AboutRoundTrip(m.about, cs + (ms + t));
    EncodeManifestParts(m, a, cs, ms);
    Assoc4(a, cs, ms, t);
  }

  lemma EncodeManifestParts(m: Manifest, a: seq<byte>, cs: seq<byte>, ms: seq<byte>)
    requires EncodeAbout(m.about) == Success(a)
    requires EncodeChannelSection(m.channels) == Success(cs)
    requires EncodeMessageSection(m.messages) == Success(ms)
    ensures EncodeManifest(m) == Success(a + cs + ms)
  {
  }

  lemma {:induction false} DecodeChannelsExtends(n: nat, s: seq<byte>, t: seq<byte>)
    requires DecodeChannels(n, s).Success?
    ensures DecodeChannels(n, s + t) == Success((DecodeChannels(n, s).value.0, DecodeChannels(n, s).value.1 + t))
  {
    if n > 0 {
      DecodeChannelExtends(s, t);
      DecodeChannelsExtends(n - 1, DecodeChannel(s).value.1, t);
    }
  }

  lemma {:induction false} DecodeMessagesExtends(n: nat, s: seq<byte>, t: seq<byte>)
    requires DecodeMessages(n, s).Success?
    ensures DecodeMessages(n, s + t) == Success((DecodeMessages(n, s).value.0, DecodeMessages(n, s).value.1 + t))
  {
    if n > 0 {
      DecodeMessageExtends(s, t);
      DecodeMessagesExtends(n - 1, DecodeMessage(s).value.1, t);
    }
  }

  lemma DecodeChannelSectionExtends(s: seq<byte>, t: seq<byte>)
    requires DecodeChannelSection(s).Success?
    ensures DecodeChannelSection(s + t)
      == Success((DecodeChannelSection(s).value.0, DecodeChannelSection(s).value.1 + t))
  {
    ReadLongExtends(4, s, t);
    var n := ReadLong(4, s).value;
    DecodeChannelsExtends(n.0, n.1, t);
  }

  lemma DecodeMessageSectionExtends(s: seq<byte>, t: seq<byte>)
    requires DecodeMessageSection(s).Success?
    ensures DecodeMessageSection(s + t)
      == Success((DecodeMessageSection(s).value.0, DecodeMessageSection(s).value.1 + t))
  {
    ReadLongExtends(4, s, t);
    var n := ReadLong(4, s).value;
    DecodeMessagesExtends(n.0, n.1, t);
  }

  /** Reading an index only looks at its own bytes: whatever follows it is left unread. */
  lemma DecodeManifestExtends(s: seq<byte>, t: seq<byte>)
    requires DecodeManifest(s).Success?
    ensures DecodeManifest(s + t) == Success((DecodeManifest(s).value.0, DecodeManifest(s).value.1 + t))
  {
    DecodeAboutExtends(s, t);
    var r1 := DecodeAbout(s).value.1;
    DecodeChannelSectionExtends(r1, t);
    var r2 := DecodeChannelSection(r1).value.1;
    DecodeMessageSectionExtends(r2, t);
  }

  /**
   * Every strict prefix of a written index fails to read: a cut-off stream
   * never yields a partial index.
   */
  lemma ManifestTruncation(m: Manifest, i: nat)
    requires ManifestFits(m)
    ensures EncodeManifest(m).Success?
    ensures i < |EncodeManifest(m).value| ==> DecodeManifest(EncodeManifest(m).value[..i]).Failure?
  {
    ManifestRoundTrip(m, []);
    var e := EncodeManifest(m).value;
    AppendEmpty(e);
    if i < |e| && DecodeManifest(e[..i]).Success? {
      PrefixSuffix(e, i);
      DecodeManifestExtends(e[..i], e[i..]);
      assert false;
    }
  }
}
