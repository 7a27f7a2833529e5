/**
 * The descriptor objects of an archive index: Channel, Message and About as
 * the reader and the index builder use them, with fields that the setters
 * and `Read` change in place. `Value()` is the descriptor an object holds;
 * every method is specified by what it does to that value, so the
 * properties proved about the values in Descriptors and Codec carry over.
 * A stream is the sequence of bytes still unread (or the bytes written).
 */
module Records {
  import opened Wrappers
  import opened Wire
  import opened Bits
  import opened Descriptors
  import opened Codec

  // -------------------------------------------------------------- channels

  class Channel {
    var scope: Option<seq<byte>>
    var version: int64
    var flags: bv32

    /** The channel descriptor this object holds. */
    function Value(): ChannelRec
      reads this
    {
      ChannelRec(scope, version, flags)
    }

    constructor ()
      ensures Value() == EMPTY_CHANNEL
    {
      scope := None;
      version := -1;
      flags := 0;
    }

    /** setScope: the scope is the 32 bytes of a hash. */
    method SetScope(hash: seq<byte>)
      requires |hash| == SCOPE_LENGTH
      modifies this
      ensures Value() == old(Value()).(scope := Some(hash))
    {
      scope := Some(hash);
    }

    method SetVersion(v: int64)
      modifies this
      ensures Value() == old(Value()).(version := v)
    {
      version := v;
    }

    method SetIsNew(on: bool)
      modifies this
      ensures Value() == old(Value()).WithFlag(CHANNEL_ISNEW, on)
    {
      flags := Set(flags, CHANNEL_ISNEW, on);
    }

    method SetIsPBE(on: bool)
      modifies this
      ensures Value() == old(Value()).WithFlag(CHANNEL_PBE, on)
    {
      flags := Set(flags, CHANNEL_PBE, on);
    }

    method SetIsPublic(on: bool)
      modifies this
      ensures Value() == old(Value()).WithFlag(CHANNEL_PUBLIC, on)
    {
      flags := Set(flags, CHANNEL_PUBLIC, on);
    }

    method SetWantNewMeta(on: bool)
      modifies this
      ensures Value() == old(Value()).WithFlag(CHANNEL_WANTNEWMETA, on)
    {
      flags := Set(flags, CHANNEL_WANTNEWMETA, on);
    }

    method SetWantNewMsgs(on: bool)
      modifies this
      ensures Value() == old(Value()).WithFlag(CHANNEL_WANTNEWMSG, on)
    {
      flags := Set(flags, CHANNEL_WANTNEWMSG, on);
    }

    /** write: the scope bytes, then the version and the flags; a missing scope or an out-of-range field fails. */
    method Write() returns (r: Result<seq<byte>, Fault>)
      ensures r == EncodeChannel(Value())
    {
      if scope.None? {
        return Failure(NullScope);
      }
      Pow256Table();
      var v := WriteLong(8, version);
      if v.Failure? {
        return Failure(v.error);
      }
      var f := WriteFlags8(flags);
      if f.Failure? {
        return Failure(f.error);
      }
      r := Success(scope.value + v.value + f.value);
    }

    /**
     * read: 32 scope bytes, an 8-byte version, a 1-byte flag word. The fields
     * are assigned only once all three are in hand, so a short stream leaves
     * the channel as it was.
     */
    method Read(s: seq<byte>) returns (r: Result<seq<byte>, Fault>)
      modifies this
      ensures r.Success? <==> DecodeChannel(s).Success?
      ensures r.Success? ==> Value() == DecodeChannel(s).value.0 && r.value == DecodeChannel(s).value.1
      ensures r.Failure? ==> Value() == old(Value()) && r.error == DecodeChannel(s).error
    {
      if |s| < SCOPE_LENGTH {
        return Failure(ShortScope);
      }
      var hash := s[..SCOPE_LENGTH];
      var v := ReadLong(8, s[SCOPE_LENGTH..]);
      if v.Failure? {
        return Failure(v.error);
      }
      Pow256Table();
      var f := ReadLong(1, v.value.1);
      if f.Failure? {
        return Failure(f.error);
      }
      assert s[SCOPE_LENGTH..][..8] == s[SCOPE_LENGTH..SCOPE_LENGTH + 8];
      SingleByte(v.value.1);
      scope := Some(hash);
      version := LongOfUnsigned(v.value.0);
      flags := Word(f.value.0);
      r := Success(f.value.1);
    }
  }

  /** A one-byte field holds the value of its byte. */
  lemma SingleByte(s: seq<byte>)
    requires |s| >= 1
    ensures Unsigned(s[..1]) == s[0]
  {
    assert s[..1][..0] == [];
  }

  // -------------------------------------------------------------- messages

  class Message {
    var messageId: int64
    var scopeChannel: int32
    var targetChannel: int32
    var flags: bv32

    /** The message descriptor this object holds. */
    function Value(): MessageRec
      reads this
    {
      MessageRec(messageId, scopeChannel, targetChannel, flags)
    }

    constructor ()
      ensures Value() == EMPTY_MESSAGE
    {
      messageId := -1;
      scopeChannel := -1;
      targetChannel := -1;
      flags := 0;
    }

    method SetMessageId(id: int64)
      modifies this
      ensures Value() == old(Value()).(messageId := id)
    {
      messageId := id;
    }

    method SetScope(channelIndex: int32)
      modifies this
      ensures Value() == old(Value()).(scopeIndex := channelIndex)
    {
      scopeChannel := channelIndex;
    }

    method SetTarget(channelIndex: int32)
      modifies this
      ensures Value() == old(Value()).(targetIndex := channelIndex)
    {
      targetChannel := channelIndex;
    }

    method SetIsNew(on: bool)
      modifies this
      ensures Value() == old(Value()).WithFlag(MESSAGE_ISNEW, on)
    {
      flags := Set(flags, MESSAGE_ISNEW, on);
    }

    method SetIsPBE(on: bool)
      modifies this
      ensures Value() == old(Value()).WithFlag(MESSAGE_PBE, on)
    {
      flags := Set(flags, MESSAGE_PBE, on);
    }

    method SetIsPrivate(on: bool)
      modifies this
      ensures Value() == old(Value()).WithFlag(MESSAGE_PRIVATE, on)
    {
      flags := Set(flags, MESSAGE_PRIVATE, on);
    }

    method SetIsPublic(on: bool)
      modifies this
      ensures Value() == old(Value()).WithFlag(MESSAGE_PUBLIC, on)
    {
      flags := Set(flags, MESSAGE_PUBLIC, on);
    }

    /**
     * setSize: the size rounded up to whole KB, shifted right by two, and its
     * binary digits counted; the count is ORed into the cleared size field.
     */
    method SetSize(bytes: int64)
      modifies this
      ensures Value() == old(Value()).WithSize(bytes)
    {
      var kb := KBRoundedUp(bytes) / 4;
      var count := 0;
      while kb > 0
        invariant count + BitLength(kb) == SizeCount(bytes)
        decreases kb
      {
        count := count + 1;
        kb := kb / 2;
      }
      flags := (flags & !MESSAGE_SIZE_MASK) | Word(count);
    }

    /** write: id in 8 bytes, scope and target indices in 4 each, flags in 1. */
    method Write() returns (r: Result<seq<byte>, Fault>)
      ensures r == EncodeMessage(Value())
    {
      Pow256Table();
      var id := WriteLong(8, messageId);
      if id.Failure? {
        return Failure(id.error);
      }
      var sc := WriteLong(4, scopeChannel);
      if sc.Failure? {
        return Failure(sc.error);
      }
      var tg := WriteLong(4, targetChannel);
      if tg.Failure? {
        return Failure(tg.error);
      }
      var f := WriteFlags8(flags);
      if f.Failure? {
        return Failure(f.error);
      }
      r := Success(id.value + sc.value + tg.value + f.value);
    }

    /** read: the four fields in order, assigned only once all of them are in hand. */
    method Read(s: seq<byte>) returns (r: Result<seq<byte>, Fault>)
      modifies this
      ensures r.Success? <==> DecodeMessage(s).Success?
      ensures r.Success? ==> Value() == DecodeMessage(s).value.0 && r.value == DecodeMessage(s).value.1
      ensures r.Failure? ==> Value() == old(Value()) && r.error == DecodeMessage(s).error
    {
      Pow256Table();
      var id := ReadLong(8, s);
      if id.Failure? {
        return Failure(id.error);
      }
      var sc := ReadLong(4, id.value.1);
      if sc.Failure? {
        return Failure(sc.error);
      }
      var tg := ReadLong(4, sc.value.1);
      if tg.Failure? {
        return Failure(tg.error);
      }
      var f := ReadLong(1, tg.value.1);
      if f.Failure? {
        return Failure(f.error);
      }
      assert s[8..][..4] == s[8..12];
      assert s[12..][..4] == s[12..16];
      SingleByte(s[16..]);
      messageId := LongOfUnsigned(id.value.0);
      scopeChannel := IntOfUnsigned(sc.value.0);
      targetChannel := IntOfUnsigned(tg.value.0);
      flags := Word(f.value.0);
      r := Success(f.value.1);
    }
  }

  // ----------------------------------------------------------------- about

  class About {
    var flags: bv32
    var adminChannel: int32
    /** The alternate archive URIs, each as its bytes; an absent list is the empty one. */
    var archiveUris: seq<seq<byte>>

    /** The about record this object holds. */
    function Value(): AboutRec
      reads this
    {
      AboutRec(flags, adminChannel, archiveUris)
    }

    constructor ()
      ensures Value() == EMPTY_ABOUT
    {
      flags := 0;
      adminChannel := NO_ADMIN_CHANNEL;
      archiveUris := [];
    }

    method SetAdminChannel(channelIndex: int32)
      modifies this
      ensures Value() == old(Value()).(adminChannel := channelIndex)
    {
      adminChannel := channelIndex;
    }

    method SetAlternativeArchives(uris: seq<seq<byte>>)
      modifies this
      ensures Value() == old(Value()).(archiveUris := uris)
    {
      archiveUris := uris;
    }

    method SetPostingRequiresPassphrase(on: bool)
      modifies this
      ensures Value() == old(Value()).WithFlag(ABOUT_POST_REQUIRES_PASSPHRASE, on)
    {
      flags := Set(flags, ABOUT_POST_REQUIRES_PASSPHRASE, on);
    }

    method SetWantPrivate(on: bool)
      modifies this
      ensures Value() == old(Value()).WithFlag(ABOUT_WANT_PRIVATE, on)
    {
      flags := Set(flags, ABOUT_WANT_PRIVATE, on);
    }

    method SetWantPBE(on: bool)
      modifies this
      ensures Value() == old(Value()).WithFlag(ABOUT_WANT_PBE, on)
    {
      flags := Set(flags, ABOUT_WANT_PBE, on);
    }

    method SetWantKnownChannelsOnly(on: bool)
      modifies this
      ensures Value() == old(Value()).WithFlag(ABOUT_WANT_KNOWN_ONLY, on)
    {
      flags := Set(flags, ABOUT_WANT_KNOWN_ONLY, on);
    }

    method SetWantRecentOnly(on: bool)
      modifies this
      ensures Value() == old(Value()).WithFlag(ABOUT_WANT_RECENT_ONLY, on)
    {
      flags := Set(flags, ABOUT_WANT_RECENT_ONLY, on);
    }

    /** setMaxMessageSize: kb halved while it is above one; the number of halvings is ORed into the cleared field. */
    method SetMaxMessageSize(kb: int32)
      modifies this
      ensures Value() == old(Value()).WithMaxMessageSize(kb)
    {
      var k: int := kb;
      var count := 0;
      while k > 1
        invariant count + Log2Floor(k) == MaxSizeCount(kb)
        decreases k
      {
        k := k / 2;
        count := count + 1;
      }
      flags := (flags & !ABOUT_MAXSIZE_MASK) | Word(count);
    }

    /** setPublishRebuildFrequencyHours: the request rounded up to 1, 6, 12 or 24 hours, as a 2-bit code. */
    method SetPublishRebuildFrequencyHours(numHours: int32)
      modifies this
      ensures Value() == old(Value()).WithPublishRebuildFrequencyHours(numHours)
    {
      var flagVal := FrequencyCode(numHours);
      flags := (flags & !ABOUT_REPUBLISH_FREQUENCY_MASK) | (Word(flagVal) << 4);
    }

    /** setMinMessageSizeKBRequiringHashcash: kb >> 5 halved while it is above one, the count stored at bit 6. */
    method SetMinMessageSizeKBRequiringHashcash(kb: int32)
      modifies this
      ensures Value() == old(Value()).WithMinMessageSizeKBRequiringHashcash(kb)
    {
      var remaining: int := kb / 32;
      var shifts := 0;
      while remaining > 1
        invariant shifts + Log2Floor(remaining) == HashcashCount(kb)
        decreases remaining
      {
        shifts := shifts + 1;
        remaining := remaining / 2;
      }
      flags := (flags & !ABOUT_HASHCASH_MINSIZE_MASK) | (Word(shifts) << 6);
    }

    /** write: flags in 2 bytes, the admin channel in 4, the URI count in 1, then each URI with a 2-byte length. */
    method Write() returns (r: Result<seq<byte>, Fault>)
      ensures r == EncodeAbout(Value())
    {
      Pow256Table();
      var f := WriteFlags16(flags);
      if f.Failure? {
        return Failure(f.error);
      }
      var ad := WriteLong(4, adminChannel);
      if ad.Failure? {
        return Failure(ad.error);
      }
      var n := WriteLong(1, |archiveUris|);
      if n.Failure? {
        return Failure(n.error);
      }
      var out := f.value + ad.value + n.value;
      var i := 0;
      while i < |archiveUris|
        invariant i <= |archiveUris|
        invariant EncodeAbout(Value()) == Then(out, EncodeUris(archiveUris[i..]))
      {
        EncodeUrisStep(archiveUris, i);
        var len := WriteLong(2, |archiveUris[i]|);
        if len.Failure? {
          return Failure(len.error);
        }
        ThenAppend(out, len.value + archiveUris[i], EncodeUris(archiveUris[i + 1..]));
        Assoc(out, len.value, archiveUris[i]);
        out := out + len.value + archiveUris[i];
        i := i + 1;
      }
      AppendEmpty(out);
      r := Success(out);
    }

    /**
     * read: the flags, the admin channel and the URI count, then each URI; the
     * fields are assigned only once every URI is in hand, so a short stream
     * leaves the record as it was.
     */
    method Read(s: seq<byte>) returns (r: Result<seq<byte>, Fault>)
      modifies this
      ensures r.Success? <==> DecodeAbout(s).Success?
      ensures r.Success? ==> Value() == DecodeAbout(s).value.0 && r.value == DecodeAbout(s).value.1
      ensures r.Failure? ==> Value() == old(Value()) && r.error == DecodeAbout(s).error
    {
      Pow256Table();
      var f := ReadLong(2, s);
      if f.Failure? {
        return Failure(f.error);
      }
      var ad := ReadLong(4, f.value.1);
      if ad.Failure? {
        return Failure(ad.error);
      }
      var n := ReadLong(1, ad.value.1);
      if n.Failure? {
        return Failure(n.error);
      }
      var count := n.value.0;
      AboutViaUris(s);
      var uris: seq<seq<byte>> := [];
      var rest := n.value.1;
      var i := 0;
      while i < count
        invariant i <= count
        invariant Value() == old(Value())
        invariant DecodeUris(count, n.value.1) == Prefixed(uris, DecodeUris(count - i, rest))
      {
        var len := ReadLong(2, rest);
        if len.Failure? {
          assert DecodeUris(count - i, rest) == Failure(ShortField);
          return Failure(len.error);
        }
        if |len.value.1| < len.value.0 {
          return Failure(ShortUri);
        }
        var data := len.value.1[..len.value.0];
        PrefixedTwice(uris, [data], DecodeUris(count - i - 1, len.value.1[len.value.0..]));
        uris := uris + [data];
        rest := len.value.1[len.value.0..];
        i := i + 1;
      }
      AppendEmpty(uris);
      flags := Word16(f.value.0);
      adminChannel := IntOfUnsigned(ad.value.0);
      archiveUris := uris;
      r := Success(rest);
    }
  }

  /** About.read past its three fixed fields: the record stands or falls with its URI list. */
  lemma AboutViaUris(s: seq<byte>)
    requires |s| >= 7
    ensures
      var f := ReadLong(2, s).value;
      var ad := ReadLong(4, f.1).value;
      var n := ReadLong(1, ad.1).value;
      var us := DecodeUris(n.0, n.1);
      DecodeAbout(s) == if us.Failure? then Failure(us.error)
        else Success((AboutRec(Word16(f.0), IntOfUnsigned(ad.0), us.value.0), us.value.1))
  {
    Pow256Table();
  }

  /** The bytes already written, followed by what the rest encodes to; a failure of the rest is the result. */
  function Then(done: seq<byte>, rest: Result<seq<byte>, Fault>): (r: Result<seq<byte>, Fault>)
    ensures r.Success? <==> rest.Success?
    ensures r.Failure? ==> r == rest
    ensures r.Success? ==> |r.value| == |done| + |rest.value| && r.value[..|done|] == done
  {
    if rest.Failure? then rest else Success(done + rest.value)
  }

  lemma ThenAppend(done: seq<byte>, more: seq<byte>, rest: Result<seq<byte>, Fault>)
    ensures Then(done, Then(more, rest)) == Then(done + more, rest)
  {
    if rest.Success? {
      Assoc(done, more, rest.value);
    }
  }

  /** One step of the URI list encoder: a 2-byte length and the URI, then the rest. */
  lemma EncodeUrisStep(us: seq<seq<byte>>, i: nat)
    requires i < |us|
    ensures EncodeUris(us[i..]) ==
      if |us[i]| >= 0x1_0000 then Failure(OutOfRange)
      else Then(WriteLong(2, |us[i]|).value + us[i], EncodeUris(us[i + 1..]))
  {
    Pow256Table();
    assert us[i..][0] == us[i];
    assert us[i..][1..] == us[i + 1..];
  }

  /** The URIs already read, put before what the rest decodes to; a failure of the rest is the result. */
  function Prefixed(done: seq<seq<byte>>, rest: Decoded<seq<seq<byte>>>): (r: Decoded<seq<seq<byte>>>)
    ensures r.Success? <==> rest.Success?
    ensures r.Failure? ==> r == rest
    ensures r.Success? ==> |r.value.0| == |done| + |rest.value.0| && r.value.0[..|done|] == done
    ensures r.Success? ==> r.value.1 == rest.value.1
  {
    if rest.Failure? then rest else Success((done + rest.value.0, rest.value.1))
  }

  lemma PrefixedTwice(done: seq<seq<byte>>, more: seq<seq<byte>>, rest: Decoded<seq<seq<byte>>>)
    ensures Prefixed(done, Prefixed(more, rest)) == Prefixed(done + more, rest)
  {
    if rest.Success? {
      Assoc(done, more, rest.value.0);
    }
  }
}
