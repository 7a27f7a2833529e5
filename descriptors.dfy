/**
 * The three record kinds of an archive index as values: a channel descriptor,
 * a message descriptor and the archive's "about" summary. Each flag word is a
 * Java `int`, here a `bv32`; the getters and setters below fix its bit layout
 * and the unit conversions of its coded fields.
 */
module Descriptors {
  import opened Wrappers
  import opened Wire
  import opened Bits

  /** A channel scope is a 32-byte hash. */
  const SCOPE_LENGTH: nat := 32

  // ---------------------------------------------------------------- channels

  const CHANNEL_PBE: bv32 := 0x80
  const CHANNEL_PUBLIC: bv32 := 0x40
  const CHANNEL_ISNEW: bv32 := 0x20
  const CHANNEL_WANTNEWMETA: bv32 := 0x10
  const CHANNEL_WANTNEWMSG: bv32 := 0x08
  const CHANNEL_FLAGS: set<bv32> := {CHANNEL_PBE, CHANNEL_PUBLIC, CHANNEL_ISNEW, CHANNEL_WANTNEWMETA, CHANNEL_WANTNEWMSG}

  /** A channel descriptor; `scope` is None until it is set or read. */
  datatype ChannelRec = ChannelRec(scope: Option<seq<byte>>, version: int64, flags: bv32) {
    predicate IsPBE() { Has(flags, CHANNEL_PBE) }
    predicate IsPublic() { Has(flags, CHANNEL_PUBLIC) }
    predicate IsNew() { Has(flags, CHANNEL_ISNEW) }
    predicate WantNewMeta() { Has(flags, CHANNEL_WANTNEWMETA) }
    predicate WantNewMsg() { Has(flags, CHANNEL_WANTNEWMSG) }

    /** The boolean setter for the flag `mask`. */
    function WithFlag(mask: bv32, on: bool): ChannelRec {
      this.(flags := Set(flags, mask, on))
    }
  }

  /** A channel as its constructor leaves it. */
  const EMPTY_CHANNEL: ChannelRec := ChannelRec(None, -1, 0)

  /** Each boolean channel setter makes its getter answer `on` and changes no other bit or field. */
  lemma ChannelFlagSetter(c: ChannelRec, mask: bv32, on: bool)
    requires mask in CHANNEL_FLAGS
    ensures Has(c.WithFlag(mask, on).flags, mask) == on
    ensures (c.WithFlag(mask, on).flags & !mask) == (c.flags & !mask)
    ensures forall other :: other in CHANNEL_FLAGS && other != mask ==>
      Has(c.WithFlag(mask, on).flags, other) == Has(c.flags, other)
    ensures c.WithFlag(mask, on).scope == c.scope && c.WithFlag(mask, on).version == c.version
  {
    SetThenHas(c.flags, mask, on);
    forall other | other in CHANNEL_FLAGS && other != mask
      ensures Has(c.WithFlag(mask, on).flags, other) == Has(c.flags, other)
    {
      ChannelOtherFlag(c.flags, mask, on, other);
    }
  }

  lemma ChannelOtherFlag(f: bv32, mask: bv32, on: bool, other: bv32)
    requires mask in CHANNEL_FLAGS && other in CHANNEL_FLAGS && other != mask
    ensures Has(Set(f, mask, on), other) == Has(f, other)
  {
    ChannelFlagsDisjoint(mask, other);
    SetKeepsOthers(f, mask, on, other);
  }

  lemma ChannelFlagsDisjoint(a: bv32, b: bv32)
    requires a in CHANNEL_FLAGS && b in CHANNEL_FLAGS && a != b
    ensures (a & b) == 0
  {
  }

  // ---------------------------------------------------------------- messages

  const MESSAGE_PBE: bv32 := 0x80
  const MESSAGE_PRIVATE: bv32 := 0x40
  const MESSAGE_PUBLIC: bv32 := 0x20
  const MESSAGE_ISNEW: bv32 := 0x10
  /** Size class k in the low four bits: the message is at most 4KB * 2^k. */
  const MESSAGE_SIZE_MASK: bv32 := 0x0F
  const MESSAGE_FLAGS: set<bv32> := {MESSAGE_PBE, MESSAGE_PRIVATE, MESSAGE_PUBLIC, MESSAGE_ISNEW}

  /**
   * A message descriptor: the message id within its scope, the indices of its
   * scope and target channels in the index's channel list, and the flags.
   */
  datatype MessageRec = MessageRec(messageId: int64, scopeIndex: int32, targetIndex: int32, flags: bv32) {
    predicate IsPBE() { Has(flags, MESSAGE_PBE) }
    predicate IsPrivate() { Has(flags, MESSAGE_PRIVATE) }
    predicate IsPublic() { Has(flags, MESSAGE_PUBLIC) }
    predicate IsNew() { Has(flags, MESSAGE_ISNEW) }

    function SizeClass(): (k: nat)
      ensures k < 16
    {
      Num(flags & MESSAGE_SIZE_MASK)
    }

    /** `1 << (2 + class)`: an upper bound on the message size in KB. */
    function MaxSizeKB(): (kb: nat)
      ensures 4 <= kb <= 0x2_0000 && IsPow2(kb)
    {
      Pow2AtMost17(2 + SizeClass());
      Pow2(2 + SizeClass())
    }

    function WithFlag(mask: bv32, on: bool): MessageRec {
      this.(flags := Set(flags, mask, on))
    }

    /** setSize as written: the counted class is ORed in without masking it to four bits. */
    function WithSize(bytes: int64): MessageRec {
      WithSizeCount(SizeCount(bytes))
    }

    /** The size field cleared and the count ORed in, unmasked. */
    function WithSizeCount(n: nat): MessageRec
      requires n < 256
    {
      this.(flags := (flags & !MESSAGE_SIZE_MASK) | Word(n))
    }

    /** setSize with the class saturated at 15, so that it stays inside its four bits. */
    function WithSizeSaturated(bytes: int64): MessageRec {
      WithSizeCount(if SizeCount(bytes) <= 15 then SizeCount(bytes) else 15)
    }
  }

  /** A message as its constructor leaves it. */
  const EMPTY_MESSAGE: MessageRec := MessageRec(-1, -1, -1, 0)

  /** The size in KB, rounded up, as Java computes it from a byte count held in a `long`. */
  function KBRoundedUp(bytes: int64): int64 {
    JavaDiv(WrapLong(bytes + 1023), 1024)
  }

  /** The class setSize counts: the number of binary digits of the KB count shifted right by two. */
  function SizeCount(bytes: int64): (n: nat)
    ensures n <= 51
  {
    var q := KBRoundedUp(bytes) / 4;
    BitLengthBelow51(q);
    BitLength(q)
  }

  lemma MessageFlagSetter(m: MessageRec, mask: bv32, on: bool)
    requires mask in MESSAGE_FLAGS
    ensures Has(m.WithFlag(mask, on).flags, mask) == on
    ensures (m.WithFlag(mask, on).flags & !mask) == (m.flags & !mask)
    ensures forall other :: other in MESSAGE_FLAGS && other != mask ==>
      Has(m.WithFlag(mask, on).flags, other) == Has(m.flags, other)
    ensures m.WithFlag(mask, on).SizeClass() == m.SizeClass()
  {
    SetThenHas(m.flags, mask, on);
    forall other | other in MESSAGE_FLAGS && other != mask
      ensures Has(m.WithFlag(mask, on).flags, other) == Has(m.flags, other)
    {
      MessageOtherFlag(m.flags, mask, on, other);
    }
    MessageSizeUntouched(m.flags, mask, on);
  }

  lemma MessageOtherFlag(f: bv32, mask: bv32, on: bool, other: bv32)
    requires mask in MESSAGE_FLAGS && other in MESSAGE_FLAGS && other != mask
    ensures Has(Set(f, mask, on), other) == Has(f, other)
  {
    MessageFlagsDisjoint(mask, other);
    SetKeepsOthers(f, mask, on, other);
  }

  lemma MessageFlagsDisjoint(a: bv32, b: bv32)
    requires a in MESSAGE_FLAGS && b in MESSAGE_FLAGS && a != b
    ensures (a & b) == 0
  {
  }

  lemma MessageSizeUntouched(f: bv32, mask: bv32, on: bool)
    requires mask in MESSAGE_FLAGS
    ensures (Set(f, mask, on) & MESSAGE_SIZE_MASK) == (f & MESSAGE_SIZE_MASK)
  {
    SetKeepsOthers(f, mask, on, MESSAGE_SIZE_MASK);
  }

  lemma SizeFieldRoundTrip(f: bv32, w: bv32)
    requires w < 16
    ensures (((f & !MESSAGE_SIZE_MASK) | w) & MESSAGE_SIZE_MASK) == w
    ensures (((f & !MESSAGE_SIZE_MASK) | w) & !MESSAGE_SIZE_MASK) == (f & !MESSAGE_SIZE_MASK)
  {
  }

  /**
   * Whenever the counted class fits its four bits, setSize records an upper
   * bound on the size that is at most twice the size (or 4KB), and leaves the
   * other flags alone.
   */
  lemma SizeClassBound(m: MessageRec, bytes: int64)
    requires 0 <= bytes <= LONG_MAX - 1023
    requires SizeCount(bytes) <= 15
    ensures m.WithSize(bytes).SizeClass() == SizeCount(bytes)
    ensures m.WithSize(bytes).MaxSizeKB() == 4 * Pow2(SizeCount(bytes))
    ensures m.WithSize(bytes).MaxSizeKB() >= (bytes + 1023) / 1024
    ensures SizeCount(bytes) > 0 ==> m.WithSize(bytes).MaxSizeKB() <= 2 * ((bytes + 1023) / 1024)
    ensures (m.WithSize(bytes).flags & !MESSAGE_SIZE_MASK) == (m.flags & !MESSAGE_SIZE_MASK)
  {
    WithSizeClass(m, SizeCount(bytes));
    ClassCoversKB(bytes);
  }

  /**
   * setSize at the top of the long range: bytes + 1023 wraps negative, so the
   * KB count is negative, the class count is 0 and the class reads 4KB; only
   * the size field is touched.
   */
  lemma SizeClassWraps(m: MessageRec, bytes: int64)
    requires LONG_MAX - 1023 < bytes
    ensures KBRoundedUp(bytes) < 0
    ensures SizeCount(bytes) == 0
    ensures m.WithSize(bytes).MaxSizeKB() == 4
    ensures (m.WithSize(bytes).flags & !MESSAGE_SIZE_MASK) == (m.flags & !MESSAGE_SIZE_MASK)
  {
    assert WrapLong(bytes + 1023) == bytes + 1023 - 0x1_0000_0000_0000_0000;
    WithSizeClass(m, 0);
  }

  /** A count below 16 becomes the size class, and nothing outside the size field changes. */
  lemma WithSizeClass(m: MessageRec, n: nat)
    requires n < 16
    ensures m.WithSizeCount(n).SizeClass() == n
    ensures m.WithSizeCount(n).MaxSizeKB() == 4 * Pow2(n)
    ensures (m.WithSizeCount(n).flags & !MESSAGE_SIZE_MASK) == (m.flags & !MESSAGE_SIZE_MASK)
  {
    WithSizeClassNum(m, n);
    MaxSizeOfClass(m.WithSizeCount(n), n);
  }

  lemma MaxSizeOfClass(m: MessageRec, n: nat)
    requires m.SizeClass() == n
    ensures m.MaxSizeKB() == 4 * Pow2(n)
  {
    Pow2Add(2, n);
  }

  lemma WithSizeClassNum(m: MessageRec, n: nat)
    requires n < 16
    ensures m.WithSizeCount(n).SizeClass() == n
    ensures (m.WithSizeCount(n).flags & !MESSAGE_SIZE_MASK) == (m.flags & !MESSAGE_SIZE_MASK)
  {
    WithSizeField(m.flags, n);
    NumWord(n);
  }

  lemma WithSizeField(f: bv32, n: nat)
    requires n < 16
    ensures (((f & !MESSAGE_SIZE_MASK) | Word(n)) & MESSAGE_SIZE_MASK) == Word(n)
    ensures (((f & !MESSAGE_SIZE_MASK) | Word(n)) & !MESSAGE_SIZE_MASK) == (f & !MESSAGE_SIZE_MASK)
  {
    WordBelow16(n);
    SizeFieldRoundTrip(f, Word(n));
  }

  /** For a byte count that does not overflow, 4KB * 2^count covers the size, and at most doubles it. */
  lemma ClassCoversKB(bytes: int64)
    requires 0 <= bytes <= LONG_MAX - 1023
    ensures (bytes + 1023) / 1024 < 4 * Pow2(SizeCount(bytes))
    ensures SizeCount(bytes) > 0 ==> 4 * Pow2(SizeCount(bytes)) <= 2 * ((bytes + 1023) / 1024)
  {
    var kb := (bytes + 1023) / 1024;
    KBRoundedUpExact(bytes);
    var n := SizeCount(bytes);
    assert n == BitLength(kb / 4);
    BitLengthBounds(kb / 4);
    if n > 0 {
      Pow2Add(1, n - 1);
    }
  }

  lemma KBRoundedUpExact(bytes: int64)
    requires 0 <= bytes <= LONG_MAX - 1023
    ensures KBRoundedUp(bytes) == (bytes + 1023) / 1024
  {
  }

  /** A count below 16 is a flag word below 16. */
  lemma WordBelow16(n: nat)
    requires n < 16
    ensures Word(n) < 16
  {
  }

  /** The saturated setter never disturbs the other flags, and bounds every size up to 128MB. */
  lemma SaturatedSizeClassBound(m: MessageRec, bytes: int64)
    requires 0 <= bytes <= 0x800_0000
    ensures (m.WithSizeSaturated(bytes).flags & !MESSAGE_SIZE_MASK) == (m.flags & !MESSAGE_SIZE_MASK)
    ensures m.WithSizeSaturated(bytes).MaxSizeKB() >= (bytes + 1023) / 1024
  {
    var n := SizeCount(bytes);
    var k := if n <= 15 then n else 15;
    WithSizeClass(m, k);
    ClassCoversKB(bytes);
    if n > 15 {
      Pow2Table();
      Pow2Add(2, 15);
    }
  }

  /** The saturated setter agrees with setSize whenever setSize's class fits. */
  lemma SaturatedAgrees(m: MessageRec, bytes: int64)
    requires SizeCount(bytes) <= 15
    ensures m.WithSizeSaturated(bytes) == m.WithSize(bytes)
  {
  }

  /**
   * setSize as written: a message of 128MB + 1 byte counts class 16, whose
   * fifth bit lands on the is-new flag while the size class reads 0 (4KB).
   */
  lemma SizeClassOverflow()
    ensures SizeCount(0x800_0001) == 16
    ensures !EMPTY_MESSAGE.(flags := 0).IsNew()
    ensures EMPTY_MESSAGE.(flags := 0).WithSize(0x800_0001).IsNew()
    ensures EMPTY_MESSAGE.(flags := 0).WithSize(0x800_0001).MaxSizeKB() == 4
  {
    var kb := KBRoundedUp(0x800_0001);
    assert kb == 0x2_0001;
    Pow2Table();
    BitLengthBounds(kb / 4);
    BitLengthBelow(kb / 4, 16);
    if BitLength(kb / 4) < 16 {
      Pow2Monotone(BitLength(kb / 4), 15);
    }
    assert Word(16) == 0x10;
  }

  // ------------------------------------------------------------------- about

  const ABOUT_WANT_RECENT_ONLY: bv32 := 0x8000
  const ABOUT_WANT_KNOWN_ONLY: bv32 := 0x4000
  const ABOUT_WANT_PBE: bv32 := 0x2000
  const ABOUT_WANT_PRIVATE: bv32 := 0x1000
  const ABOUT_POST_REQUIRES_PASSPHRASE: bv32 := 0x0800
  /** Bits 6-10: the hashcash threshold exponent, minus five. */
  const ABOUT_HASHCASH_MINSIZE_MASK: bv32 := 0x07C0
  /** Bits 4-5: the republish period code. */
  const ABOUT_REPUBLISH_FREQUENCY_MASK: bv32 := 0x0030
  /** Bits 0-3: the maximum message size exponent. */
  const ABOUT_MAXSIZE_MASK: bv32 := 0x000F
  const ABOUT_FLAGS: set<bv32> :=
    {ABOUT_WANT_RECENT_ONLY, ABOUT_WANT_KNOWN_ONLY, ABOUT_WANT_PBE, ABOUT_WANT_PRIVATE, ABOUT_POST_REQUIRES_PASSPHRASE}

  /** The admin channel index meaning "no admin channel": the largest Java int. */
  const NO_ADMIN_CHANNEL: int32 := 0x7FFF_FFFF

  /** The archive summary: flags, the admin channel index and the alternate archive URIs (as bytes). */
  datatype AboutRec = AboutRec(flags: bv32, adminChannel: int32, archiveUris: seq<seq<byte>>) {
    predicate WantRecentOnly() { Has(flags, ABOUT_WANT_RECENT_ONLY) }
    predicate WantKnownChannelsOnly() { Has(flags, ABOUT_WANT_KNOWN_ONLY) }
    predicate WantPBE() { Has(flags, ABOUT_WANT_PBE) }
    predicate WantPrivate() { Has(flags, ABOUT_WANT_PRIVATE) }
    predicate PostRequiresPassphrase() { Has(flags, ABOUT_POST_REQUIRES_PASSPHRASE) }

    function HashcashField(): (n: nat)
      ensures n < 32
    {
      HashcashFieldBelow32((flags & ABOUT_HASHCASH_MINSIZE_MASK) >> 6);
      Num((flags & ABOUT_HASHCASH_MINSIZE_MASK) >> 6)
    }

    /** Messages at or above this many KB need a hashcash certificate. */
    function MinMessageSizeKBRequiringHashcash(): int32 {
      JavaShiftOne(HashcashField() + 5)
    }

    function MaxSizeField(): (n: nat)
      ensures n < 16
    {
      Num(flags & ABOUT_MAXSIZE_MASK)
    }

    /** The largest message, in KB, the archive accepts. */
    function MaxMessageSize(): (kb: nat)
      ensures 1 <= kb <= 0x8000 && IsPow2(kb)
    {
      Pow2AtMost15(MaxSizeField());
      Pow2(MaxSizeField())
    }

    function FrequencyField(): (n: nat)
      ensures n < 4
    {
      FrequencyFieldBelow4((flags & ABOUT_REPUBLISH_FREQUENCY_MASK) >> 4);
      Num((flags & ABOUT_REPUBLISH_FREQUENCY_MASK) >> 4)
    }

    /** How often, in hours, the archive rebuilds its index. */
    function PublishRebuildFrequencyHours(): (hours: int)
      ensures hours in {1, 6, 12, 24}
    {
      match FrequencyField()
      case 0 => 1
      case 1 => 6
      case 2 => 12
      case _ => 24
    }

    function WithFlag(mask: bv32, on: bool): AboutRec {
      this.(flags := Set(flags, mask, on))
    }

    /** setMaxMessageSize as written: floor(log2 kb) ORed in without masking it to four bits. */
    function WithMaxMessageSize(kb: int32): AboutRec {
      WithMaxSizeCount(MaxSizeCount(kb))
    }

    /** The size field cleared and the exponent ORed in, unmasked. */
    function WithMaxSizeCount(n: nat): AboutRec
      requires n < 256
    {
      this.(flags := (flags & !ABOUT_MAXSIZE_MASK) | Word(n))
    }

    /** setMaxMessageSize with the exponent saturated at 15, so that it stays inside its four bits. */
    function WithMaxMessageSizeSaturated(kb: int32): AboutRec {
      WithMaxSizeCount(if MaxSizeCount(kb) <= 15 then MaxSizeCount(kb) else 15)
    }

    function WithPublishRebuildFrequencyHours(hours: int32): AboutRec {
      WithFrequencyCode(FrequencyCode(hours))
    }

    function WithFrequencyCode(code: nat): AboutRec
      requires code < 4
    {
      this.(flags := (flags & !ABOUT_REPUBLISH_FREQUENCY_MASK) | (Word(code) << 4))
    }

    function WithMinMessageSizeKBRequiringHashcash(kb: int32): AboutRec {
      WithHashcashCount(HashcashCount(kb))
    }

    function WithHashcashCount(n: nat): AboutRec
      requires n < 32
    {
      this.(flags := (flags & !ABOUT_HASHCASH_MINSIZE_MASK) | (Word(n) << 6))
    }
  }

  /** An about record as its constructor leaves it. */
  const EMPTY_ABOUT: AboutRec := AboutRec(0, NO_ADMIN_CHANNEL, [])

  /** The hashcash field, five bits at bit 6, is below 32, as is the number of any word below 32. */
  lemma HashcashFieldBelow32(w: bv32)
    ensures ((w & ABOUT_HASHCASH_MINSIZE_MASK) >> 6) < 32
    ensures w < 32 ==> Num(w) < 32
  {
  }

  /** The republish-frequency field, two bits at bit 4, is below 4, as is the number of any word below 4. */
  lemma FrequencyFieldBelow4(w: bv32)
    ensures ((w & ABOUT_REPUBLISH_FREQUENCY_MASK) >> 4) < 4
    ensures w < 4 ==> Num(w) < 4
  {
  }

  /** Java's `1 << n` on an `int`: the shift distance is taken mod 32 and the power of two wraps to an int. */
  function JavaShiftOne(n: nat): (r: int32)
    ensures r == WrapInt(Pow2(n % 32))
  {
    Pow2Table();
    var s := n % 32;
    if s == 31 then INT_MIN else
      Pow2AtMost30(s);
      Pow2(s)
  }

  /** The exponent setMaxMessageSize counts: halvings of kb while it is above one. */
  function MaxSizeCount(kb: int32): (n: nat)
    ensures n <= 30
  {
    Log2FloorOfInt(kb);
    Log2Floor(kb)
  }

  /** The exponent setMinMessageSizeKBRequiringHashcash counts, from kb >> 5. */
  function HashcashCount(kb: int32): (n: nat)
    ensures n <= 25
  {
    Log2FloorOfInt(kb);
    Log2Floor(kb / 32)
  }

  /** The period code setPublishRebuildFrequencyHours picks. */
  function FrequencyCode(hours: int32): (code: nat)
    ensures code < 4
  {
    if hours <= 1 then 0 else if hours <= 6 then 1 else if hours <= 12 then 2 else 3
  }

  lemma AboutFlagSetter(a: AboutRec, mask: bv32, on: bool)
    requires mask in ABOUT_FLAGS
    ensures Has(a.WithFlag(mask, on).flags, mask) == on
    ensures (a.WithFlag(mask, on).flags & !mask) == (a.flags & !mask)
    ensures forall other :: other in ABOUT_FLAGS && other != mask ==>
      Has(a.WithFlag(mask, on).flags, other) == Has(a.flags, other)
    ensures a.WithFlag(mask, on).MaxSizeField() == a.MaxSizeField()
    ensures a.WithFlag(mask, on).FrequencyField() == a.FrequencyField()
    ensures a.WithFlag(mask, on).HashcashField() == a.HashcashField()
  {
    SetThenHas(a.flags, mask, on);
    forall other | other in ABOUT_FLAGS && other != mask
      ensures Has(a.WithFlag(mask, on).flags, other) == Has(a.flags, other)
    {
      AboutOtherFlag(a.flags, mask, on, other);
    }
    AboutFlagKeepsFields(a, mask, on);
  }

  lemma AboutFlagKeepsFields(a: AboutRec, mask: bv32, on: bool)
    requires mask in ABOUT_FLAGS
    ensures a.WithFlag(mask, on).MaxSizeField() == a.MaxSizeField()
    ensures a.WithFlag(mask, on).FrequencyField() == a.FrequencyField()
    ensures a.WithFlag(mask, on).HashcashField() == a.HashcashField()
  {
    AboutFieldsUntouched(a.flags, mask, on);
  }

  lemma AboutOtherFlag(f: bv32, mask: bv32, on: bool, other: bv32)
    requires mask in ABOUT_FLAGS && other in ABOUT_FLAGS && other != mask
    ensures Has(Set(f, mask, on), other) == Has(f, other)
  {
    AboutFlagsDisjoint(mask, other);
    SetKeepsOthers(f, mask, on, other);
  }

  lemma AboutFlagsDisjoint(a: bv32, b: bv32)
    requires a in ABOUT_FLAGS && b in ABOUT_FLAGS && a != b
    ensures (a & b) == 0
  {
  }

  lemma AboutFieldsUntouched(f: bv32, mask: bv32, on: bool)
    requires mask in ABOUT_FLAGS
    ensures (Set(f, mask, on) & ABOUT_MAXSIZE_MASK) == (f & ABOUT_MAXSIZE_MASK)
    ensures (Set(f, mask, on) & ABOUT_REPUBLISH_FREQUENCY_MASK) == (f & ABOUT_REPUBLISH_FREQUENCY_MASK)
    ensures (Set(f, mask, on) & ABOUT_HASHCASH_MINSIZE_MASK) == (f & ABOUT_HASHCASH_MINSIZE_MASK)
  {
    SetKeepsOthers(f, mask, on, ABOUT_MAXSIZE_MASK);
    SetKeepsOthers(f, mask, on, ABOUT_REPUBLISH_FREQUENCY_MASK);
    SetKeepsOthers(f, mask, on, ABOUT_HASHCASH_MINSIZE_MASK);
  }

  /** The summary's fields occupy disjoint bits that together fill the 16-bit word. */
  lemma AboutLayoutDisjoint()
    ensures (ABOUT_MAXSIZE_MASK & ABOUT_REPUBLISH_FREQUENCY_MASK) == 0
    ensures (ABOUT_REPUBLISH_FREQUENCY_MASK & ABOUT_HASHCASH_MINSIZE_MASK) == 0
    ensures (ABOUT_HASHCASH_MINSIZE_MASK & ABOUT_POST_REQUIRES_PASSPHRASE) == 0
    ensures ABOUT_MAXSIZE_MASK | ABOUT_REPUBLISH_FREQUENCY_MASK | ABOUT_HASHCASH_MINSIZE_MASK
      | ABOUT_POST_REQUIRES_PASSPHRASE | ABOUT_WANT_PRIVATE | ABOUT_WANT_PBE
      | ABOUT_WANT_KNOWN_ONLY | ABOUT_WANT_RECENT_ONLY == 0xFFFF
  {
  }

  lemma MaxSizeFieldRoundTrip(f: bv32, w: bv32)
    requires w < 16
    ensures (((f & !ABOUT_MAXSIZE_MASK) | w) & ABOUT_MAXSIZE_MASK) == w
    ensures (((f & !ABOUT_MAXSIZE_MASK) | w) & !ABOUT_MAXSIZE_MASK) == (f & !ABOUT_MAXSIZE_MASK)
  {
  }

  lemma FrequencyFieldRoundTrip(f: bv32, w: bv32)
    requires w < 4
    ensures ((((f & !ABOUT_REPUBLISH_FREQUENCY_MASK) | (w << 4)) & ABOUT_REPUBLISH_FREQUENCY_MASK) >> 4) == w
    ensures (((f & !ABOUT_REPUBLISH_FREQUENCY_MASK) | (w << 4)) & !ABOUT_REPUBLISH_FREQUENCY_MASK)
      == (f & !ABOUT_REPUBLISH_FREQUENCY_MASK)
  {
  }

  lemma HashcashFieldRoundTrip(f: bv32, w: bv32)
    requires w < 32
    ensures ((((f & !ABOUT_HASHCASH_MINSIZE_MASK) | (w << 6)) & ABOUT_HASHCASH_MINSIZE_MASK) >> 6) == w
    ensures (((f & !ABOUT_HASHCASH_MINSIZE_MASK) | (w << 6)) & !ABOUT_HASHCASH_MINSIZE_MASK)
      == (f & !ABOUT_HASHCASH_MINSIZE_MASK)
  {
  }

  /** An exponent below 16 becomes the size field; nothing outside it changes. */
  lemma WithMaxSizeField(a: AboutRec, n: nat)
    requires n < 16
    ensures a.WithMaxSizeCount(n).MaxSizeField() == n
    ensures a.WithMaxSizeCount(n).MaxMessageSize() == Pow2(n)
    ensures (a.WithMaxSizeCount(n).flags & !ABOUT_MAXSIZE_MASK) == (a.flags & !ABOUT_MAXSIZE_MASK)
  {
    WordBelow16(n);
    MaxSizeFieldRoundTrip(a.flags, Word(n));
    NumWord(n);
  }

  /** A code below 4 becomes the republish field; nothing outside it changes. */
  lemma WithFrequencyField(a: AboutRec, code: nat)
    requires code < 4
    ensures a.WithFrequencyCode(code).FrequencyField() == code
    ensures (a.WithFrequencyCode(code).flags & !ABOUT_REPUBLISH_FREQUENCY_MASK)
      == (a.flags & !ABOUT_REPUBLISH_FREQUENCY_MASK)
  {
    FrequencyFieldBelow4(Word(code));
    FrequencyFieldRoundTrip(a.flags, Word(code));
    NumWord(code);
  }

  /** A count below 32 becomes the hashcash field; nothing outside it changes. */
  lemma WithHashcashField(a: AboutRec, n: nat)
    requires n < 32
    ensures a.WithHashcashCount(n).HashcashField() == n
    ensures (a.WithHashcashCount(n).flags & !ABOUT_HASHCASH_MINSIZE_MASK) == (a.flags & !ABOUT_HASHCASH_MINSIZE_MASK)
  {
    HashcashFieldBelow32(Word(n));
    HashcashFieldRoundTrip(a.flags, Word(n));
    NumWord(n);
  }

  /**
   * For 1 <= kb < 2^16, setMaxMessageSize records the largest power of two
   * not above kb, and no bit outside the size field changes.
   */
  lemma MaxMessageSizeIsFloorPow2(a: AboutRec, kb: int32)
    requires 1 <= kb < 0x1_0000
    ensures a.WithMaxMessageSize(kb).MaxMessageSize() == Pow2(Log2Floor(kb))
    ensures a.WithMaxMessageSize(kb).MaxMessageSize() <= kb < 2 * a.WithMaxMessageSize(kb).MaxMessageSize()
    ensures (a.WithMaxMessageSize(kb).flags & !ABOUT_MAXSIZE_MASK) == (a.flags & !ABOUT_MAXSIZE_MASK)
  {
    Pow2Table();
    Log2FloorBelow(kb, 16);
    WithMaxSizeField(a, MaxSizeCount(kb));
    Log2FloorBounds(kb);
  }

  /**
   * setMaxMessageSize as written: asking for 64MB counts exponent 16, which
   * spills into the republish period (1 hour becomes 6) and leaves a 1KB limit.
   */
  lemma MaxMessageSizeOverflow()
    ensures MaxSizeCount(0x1_0000) == 16
    ensures EMPTY_ABOUT.PublishRebuildFrequencyHours() == 1
    ensures EMPTY_ABOUT.WithMaxMessageSize(0x1_0000).PublishRebuildFrequencyHours() == 6
    ensures EMPTY_ABOUT.WithMaxMessageSize(0x1_0000).MaxMessageSize() == 1
  {
    Pow2Table();
    Log2FloorOfPow2(16);
    assert Word(16) == 0x10;
    assert Num(0) == 0 && Num(1) == 1;
  }

  /**
   * The saturated setter never touches bits outside the size field, and records
   * the largest power of two not above kb, capped at 2^15 KB (32MB).
   */
  lemma SaturatedMaxMessageSize(a: AboutRec, kb: int32)
    requires kb >= 1
    ensures (a.WithMaxMessageSizeSaturated(kb).flags & !ABOUT_MAXSIZE_MASK) == (a.flags & !ABOUT_MAXSIZE_MASK)
    ensures a.WithMaxMessageSizeSaturated(kb).MaxMessageSize() <= kb
    ensures kb < 0x1_0000 ==> a.WithMaxMessageSizeSaturated(kb) == a.WithMaxMessageSize(kb)
    ensures kb >= 0x8000 ==> a.WithMaxMessageSizeSaturated(kb).MaxMessageSize() == 0x8000
  {
    var n := MaxSizeCount(kb);
    var k := if n <= 15 then n else 15;
    WithMaxSizeField(a, k);
    SaturatedExponent(kb);
  }

  /** The saturated exponent's power of two is at most kb, and is 2^15 once kb reaches it. */
  lemma SaturatedExponent(kb: int32)
    requires kb >= 1
    ensures var n := MaxSizeCount(kb); var k := if n <= 15 then n else 15;
      Pow2(k) <= kb && (kb < 0x1_0000 ==> k == n) && (kb >= 0x8000 ==> Pow2(k) == 0x8000)
  {
    var n := MaxSizeCount(kb);
    var k := if n <= 15 then n else 15;
    Log2FloorBounds(kb);
    Pow2Monotone(k, n);
    Pow2Table();
    if kb < 0x1_0000 {
      Log2FloorBelow(kb, 16);
    }
    if kb >= 0x8000 {
      Log2FloorAtLeast(kb, 15);
    }
  }

  /**
   * setMinMessageSizeKBRequiringHashcash records the largest power of two not
   * above kb when kb >= 32, and 32 when kb < 64, touching only its own bits.
   */
  lemma HashcashThreshold(a: AboutRec, kb: int32)
    ensures kb >= 32 ==>
      a.WithMinMessageSizeKBRequiringHashcash(kb).MinMessageSizeKBRequiringHashcash() == Pow2(Log2Floor(kb))
    ensures kb >= 32 ==>
      var r := a.WithMinMessageSizeKBRequiringHashcash(kb).MinMessageSizeKBRequiringHashcash();
      r <= kb < 2 * r
    ensures kb < 64 ==> a.WithMinMessageSizeKBRequiringHashcash(kb).MinMessageSizeKBRequiringHashcash() == 32
    ensures (a.WithMinMessageSizeKBRequiringHashcash(kb).flags & !ABOUT_HASHCASH_MINSIZE_MASK)
      == (a.flags & !ABOUT_HASHCASH_MINSIZE_MASK)
  {
    HashcashStored(a, kb);
    HashcashArith(kb);
  }

  lemma HashcashStored(a: AboutRec, kb: int32)
    ensures a.WithMinMessageSizeKBRequiringHashcash(kb).MinMessageSizeKBRequiringHashcash() == Pow2(HashcashCount(kb) + 5)
    ensures (a.WithMinMessageSizeKBRequiringHashcash(kb).flags & !ABOUT_HASHCASH_MINSIZE_MASK)
      == (a.flags & !ABOUT_HASHCASH_MINSIZE_MASK)
  {
    WithHashcashField(a, HashcashCount(kb));
    ShiftOneBelow31(HashcashCount(kb) + 5);
  }

  /** Below 31, `1 << n` is the plain power of two. */
  lemma ShiftOneBelow31(n: nat)
    requires n <= 30
    ensures JavaShiftOne(n) == Pow2(n)
  {
    Pow2AtMost30(n);
    SmallShiftDistance(n);
  }

  lemma SmallShiftDistance(n: nat)
    requires n <= 30
    ensures n % 32 == n
  {
  }

  lemma HashcashArith(kb: int32)
    ensures kb >= 32 ==> Pow2(HashcashCount(kb) + 5) == Pow2(Log2Floor(kb))
    ensures kb >= 32 ==> Pow2(HashcashCount(kb) + 5) <= kb < 2 * Pow2(HashcashCount(kb) + 5)
    ensures kb < 64 ==> Pow2(HashcashCount(kb) + 5) == 32
  {
    if kb >= 32 {
      HashcashExponent(kb);
      Log2FloorBounds(kb);
    }
    if kb < 64 {
      assert kb / 32 <= 1;
      assert HashcashCount(kb) == 0;
      Pow2Table();
    }
  }

  /** For kb >= 32 the counted exponent plus five is floor(log2 kb). */
  lemma HashcashExponent(kb: int32)
    requires kb >= 32
    ensures HashcashCount(kb) + 5 == Log2Floor(kb)
  {
    var l := Log2Floor(kb);
    Pow2Table();
    Log2FloorBounds(kb);
    if l < 5 {
      Pow2Monotone(l + 1, 5);
    }
    Pow2Add(5, l - 5);
    assert Pow2(l - 5) <= kb / 32 < 2 * Pow2(l - 5);
    Log2FloorUnique(kb / 32, l - 5);
  }

  /** The hashcash threshold round-trips on every power of two from 32KB to 2^30 KB. */
  lemma HashcashRoundTrip(a: AboutRec, j: nat)
    requires 5 <= j <= 30
    ensures Pow2(j) <= INT_MAX
    ensures a.WithMinMessageSizeKBRequiringHashcash(Pow2(j)).MinMessageSizeKBRequiringHashcash() == Pow2(j)
  {
    Pow2Table();
    Pow2Monotone(j, 30);
    Pow2Monotone(5, j);
    HashcashThreshold(a, Pow2(j));
    Log2FloorOfPow2(j);
  }

  /** The republish periods an archive can advertise, shortest first. */
  const PERIODS: seq<int> := [1, 6, 12, 24]

  /**
   * setPublishRebuildFrequencyHours picks the shortest advertised period that is
   * not shorter than the request (24 hours beyond that), touching only its bits.
   */
  lemma PublishFrequencyChoice(a: AboutRec, hours: int32)
    ensures hours <= 24 ==> a.WithPublishRebuildFrequencyHours(hours).PublishRebuildFrequencyHours() >= hours
    ensures forall i :: 0 <= i < |PERIODS| && PERIODS[i] >= hours ==>
      a.WithPublishRebuildFrequencyHours(hours).PublishRebuildFrequencyHours() <= PERIODS[i]
    ensures hours > 24 ==> a.WithPublishRebuildFrequencyHours(hours).PublishRebuildFrequencyHours() == 24
    ensures (a.WithPublishRebuildFrequencyHours(hours).flags & !ABOUT_REPUBLISH_FREQUENCY_MASK)
      == (a.flags & !ABOUT_REPUBLISH_FREQUENCY_MASK)
  {
    WithFrequencyField(a, FrequencyCode(hours));
  }

  /** The republish period round-trips on the four periods it can hold. */
  lemma PublishFrequencyRoundTrip(a: AboutRec, hours: int32)
    requires hours in PERIODS
    ensures a.WithPublishRebuildFrequencyHours(hours).PublishRebuildFrequencyHours() == hours
  {
    PublishFrequencyChoice(a, hours);
  }
}
