/**
 * What a client fetches from a shared archive: the pull strategy and the
 * selection it drives over the archive's index (selectURIsToPull), as a
 * specification the SharedArchive method is proved against.
 *
 * The selection runs in two passes. The channel pass asks for every channel
 * whose advertised version is newer than the one the client holds. The
 * message pass asks for every message the strategy admits, preceded by the
 * scope URIs of its author's and target channels where those are not asked
 * for yet. Under private information retrieval ("PIR") everything flagged
 * new is asked for whatever the other settings say.
 *
 * The message pass is stated over offers: what the strategy makes of each
 * message before the loop runs (its URIs, its size, whether PIR or the
 * filters admit it). Only the total cap depends on the loop's own state.
 */
module Pull {
  import opened Wrappers
  import opened Wire
  import opened Descriptors
  import opened Codec
  import opened Index

  datatype PullStrategy = PullStrategy(
    maxKBPerMessage: int32,
    maxKBTotal: int32,
    knownChannelsOnly: bool,
    includePrivateMessages: bool,
    includePBEMessages: bool,
    includeRecentMessagesOnly: bool,
    includeDupForPIR: bool)

  /** A new strategy: messages up to 512KB, no total cap, every flag off. */
  const DEFAULT_PULL_STRATEGY := PullStrategy(DEFAULT_MAX_SIZE_KB, 0, false, false, false, false, false)

  /**
   * What the client's database says about a scope: the channel version it
   * holds and the channel's local id, each negative when the channel is
   * unknown locally.
   */
  datatype LocalView = LocalView(channelVersion: seq<byte> -> int64, channelId: seq<byte> -> int64)

  // ----------------------------------------------------------- channel pass

  /** A channel is asked for when it is new under PIR, or newer than the local copy (and, for known-only, held locally). */
  predicate ChannelPicked(c: ChannelRec, st: PullStrategy, local: LocalView) {
    var known := local.channelVersion(ScopeBytes(c));
    (c.IsNew() && st.includeDupForPIR)
    || (!(st.knownChannelsOnly && known < 0) && c.version > known)
  }

  /** The scope URIs the channel pass collects from the first n channels, in index order. */
  function ChannelPass(m: Manifest, st: PullStrategy, local: LocalView, n: nat): seq<Handle>
    requires n <= |m.channels|
  {
    if n == 0 then []
    else
      var c := m.channels[n - 1];
      ChannelPass(m, st, local, n - 1) + (if ChannelPicked(c, st, local) then [ScopeHandle(ScopeBytes(c))] else [])
  }

  // ----------------------------------------------------------------- offers

  /** The strategy's filters other than the total cap, in the order the source applies them. */
  predicate PassesFilters(msg: MessageRec, st: PullStrategy, local: LocalView, scope: seq<byte>, target: seq<byte>) {
    !(st.maxKBPerMessage > 0 && msg.MaxSizeKB() > st.maxKBPerMessage)
    && !(msg.IsPBE() && !st.includePBEMessages)
    && !(msg.IsPrivate() && !st.includePrivateMessages)
    && !(msg.IsNew() && !st.includeRecentMessagesOnly)
    && !((local.channelId(scope) < 0 || local.channelId(target) < 0) && st.knownChannelsOnly)
  }

  /**
   * A message as the loop sees it: its author's and target's scopes, its id,
   * its maximum size in KB, whether PIR takes it (it is new and PIR is on),
   * and whether it passes the filters.
   */
  datatype Offer = Offer(scope: seq<byte>, target: seq<byte>, messageId: int64, kb: int, pirNew: bool, passes: bool)

  /** The scope of message k's author channel. */
  function ScopeOf(m: Manifest, k: nat): seq<byte> {
    if k < |m.messages| then ScopeBytesAt(m, m.messages[k].scopeIndex) else []
  }

  /** The scope of message k's target channel. */
  function TargetOf(m: Manifest, k: nat): seq<byte> {
    if k < |m.messages| then ScopeBytesAt(m, m.messages[k].targetIndex) else []
  }

  function OfferOf(m: Manifest, st: PullStrategy, local: LocalView, k: nat): Offer
    requires k < |m.messages|
  {
    var msg := m.messages[k];
    Offer(ScopeOf(m, k), TargetOf(m, k), msg.messageId, msg.MaxSizeKB(),
      msg.IsNew() && st.includeDupForPIR, PassesFilters(msg, st, local, ScopeOf(m, k), TargetOf(m, k)))
  }

  function Offers(m: Manifest, st: PullStrategy, local: LocalView): (os: seq<Offer>)
    ensures |os| == |m.messages|
    ensures forall k :: 0 <= k < |os| ==> os[k] == OfferOf(m, st, local, k)
  {
    seq(|m.messages|, k requires 0 <= k < |m.messages| => OfferOf(m, st, local, k))
  }

  // ----------------------------------------------------------- message pass

  /** A selected message: its index in the archive and the position of its URI in the result. */
  datatype Pick = Pick(index: nat, position: nat)

  /** The list built so far, the (Java int) running total of KB, and which messages were taken. */
  datatype PullState = PullState(uris: seq<Handle>, totalKB: int32, picked: seq<Pick>)

  /** `if (!uris.contains(h)) uris.add(h)` */
  function AddAbsent(uris: seq<Handle>, h: Handle): seq<Handle> {
    if h in uris then uris else uris + [h]
  }

  /**
   * The loop takes a message that PIR takes, or that passes the filters and
   * fits under the total cap; the cap is compared in Java long arithmetic
   * (no wrap-around).
   */
  predicate Takes(cap: int32, totalKB: int32, o: Offer) {
    o.pirNew || (o.passes && !(cap > 0 && totalKB + o.kb > cap))
  }

  /** One iteration of the message loop, over the offer of message k. */
  function Advance(cap: int32, s: PullState, o: Offer, k: nat): PullState {
    if Takes(cap, s.totalKB, o) then
      var u := AddAbsent(AddAbsent(s.uris, ScopeHandle(o.scope)), ScopeHandle(o.target));
      PullState(u + [MessageHandle(o.scope, o.messageId)], WrapInt(s.totalKB + o.kb), s.picked + [Pick(k, |u|)])
    else s
  }

  /** The state after the message loop has run from `start` over the first n offers. */
  function MessagePass(cap: int32, os: seq<Offer>, start: PullState, n: nat): PullState
    requires n <= |os|
  {
    if n == 0 then start
    else Advance(cap, MessagePass(cap, os, start, n - 1), os[n - 1], n - 1)
  }

  /** The state the message loop starts from: the channel pass's URIs, nothing counted or picked. */
  function Start(m: Manifest, st: PullStrategy, local: LocalView): PullState {
    PullState(ChannelPass(m, st, local, |m.channels|), 0, [])
  }

  /** The state at the end of both passes. */
  function PullRun(m: Manifest, st: PullStrategy, local: LocalView): PullState {
    MessagePass(st.maxKBTotal, Offers(m, st, local), Start(m, st, local), |m.messages|)
  }

  /** selectURIsToPull: the URIs to fetch, dependencies first. */
  function SelectURIsToPull(m: Manifest, st: PullStrategy, local: LocalView): seq<Handle> {
    PullRun(m, st, local).uris
  }

  // ------------------------------------------------------- the channel pass

  /** The channel pass yields scope URIs only, exactly those of the channels it picks. */
  lemma {:induction false} ChannelPassMembers(m: Manifest, st: PullStrategy, local: LocalView, n: nat)
    requires n <= |m.channels|
    ensures forall p :: 0 <= p < |ChannelPass(m, st, local, n)| ==> ChannelPass(m, st, local, n)[p].ScopeHandle?
    ensures forall h :: ScopeHandle(h) in ChannelPass(m, st, local, n) <==>
      exists i :: 0 <= i < n && ScopeBytes(m.channels[i]) == h && ChannelPicked(m.channels[i], st, local)
  {
    if n > 0 {
      ChannelPassMembers(m, st, local, n - 1);
      var before := ChannelPass(m, st, local, n - 1);
      forall h
        ensures ScopeHandle(h) in ChannelPass(m, st, local, n) <==>
          exists i :: 0 <= i < n && ScopeBytes(m.channels[i]) == h && ChannelPicked(m.channels[i], st, local)
      {
        if ScopeHandle(h) in ChannelPass(m, st, local, n) && ScopeHandle(h) !in before {
          assert ScopeBytes(m.channels[n - 1]) == h && ChannelPicked(m.channels[n - 1], st, local);
        }
      }
    }
  }

  /**
   * Outside PIR a channel is asked for exactly when some channel with that
   * scope is newer than the local copy, and never when the strategy wants
   * known channels only and the client does not hold it.
   */
  lemma PullChannelFilter(m: Manifest, st: PullStrategy, local: LocalView, h: seq<byte>)
    requires !st.includeDupForPIR
    ensures ScopeHandle(h) in ChannelPass(m, st, local, |m.channels|) <==>
      !(st.knownChannelsOnly && local.channelVersion(h) < 0)
      && exists i :: 0 <= i < |m.channels| && ScopeBytes(m.channels[i]) == h && m.channels[i].version > local.channelVersion(h)
  {
    ChannelPassMembers(m, st, local, |m.channels|);
  }

  /** Under PIR every channel flagged new is asked for. */
  lemma PullChannelsUnderPIR(m: Manifest, st: PullStrategy, local: LocalView, i: nat)
    requires st.includeDupForPIR && i < |m.channels| && m.channels[i].IsNew()
    ensures ScopeHandle(ScopeBytes(m.channels[i])) in ChannelPass(m, st, local, |m.channels|)
  {
    ChannelPassMembers(m, st, local, |m.channels|);
  }

  // ------------------------------------------------------------ one advance

  lemma AddAbsentFacts(uris: seq<Handle>, h: Handle)
    ensures h in AddAbsent(uris, h)
    ensures |uris| <= |AddAbsent(uris, h)| <= |uris| + 1
    ensures AddAbsent(uris, h)[..|uris|] == uris
    ensures |AddAbsent(uris, h)| == |uris| + 1 ==> AddAbsent(uris, h)[|uris|] == h && h !in uris
  {
  }

  /**
   * An iteration that takes an offer extends the list with at most two scope
   * URIs not in it yet and then the message's URI, records the pick and
   * adds the message's size to the total.
   */
  lemma AdvanceTakes(cap: int32, s: PullState, o: Offer, k: nat)
    requires Takes(cap, s.totalKB, o)
    ensures var t := Advance(cap, s, o, k);
      && |s.uris| < |t.uris| <= |s.uris| + 3
      && t.uris[..|s.uris|] == s.uris
      && t.picked == s.picked + [Pick(k, |t.uris| - 1)]
      && t.uris[|t.uris| - 1] == MessageHandle(o.scope, o.messageId)
      && ScopeHandle(o.scope) in t.uris[..|t.uris| - 1]
      && ScopeHandle(o.target) in t.uris[..|t.uris| - 1]
      && (forall q :: |s.uris| <= q < |t.uris| - 1 ==> t.uris[q].ScopeHandle? && t.uris[q] !in t.uris[..q])
      && t.totalKB == WrapInt(s.totalKB + o.kb)
  {
    var u1 := AddAbsent(s.uris, ScopeHandle(o.scope));
    var u := AddAbsent(u1, ScopeHandle(o.target));
    AddAbsentFacts(s.uris, ScopeHandle(o.scope));
    AddAbsentFacts(u1, ScopeHandle(o.target));
    var t := Advance(cap, s, o, k);
    assert t.uris == u + [MessageHandle(o.scope, o.messageId)];
    assert t.uris[..|t.uris| - 1] == u;
    assert u[..|s.uris|] == s.uris by {
      assert u[..|s.uris|] == u1[..|s.uris|];
    }
    forall q | |s.uris| <= q < |t.uris| - 1
      ensures t.uris[q].ScopeHandle? && t.uris[q] !in t.uris[..q]
    {
      assert t.uris[..q] == u[..q];
      if q < |u1| {
        assert q == |s.uris| && u[..q] == s.uris;
      } else {
        assert q == |u1| && u[..q] == u1;
      }
    }
  }

  /**
   * The state before an iteration is a prefix of the state after it, and the
   * iteration records a pick exactly when it takes the offer.
   */
  lemma AdvanceExtends(cap: int32, s: PullState, o: Offer, k: nat)
    ensures var t := Advance(cap, s, o, k);
      |s.uris| <= |t.uris| && t.uris[..|s.uris|] == s.uris
      && |t.picked| == |s.picked| + (if Takes(cap, s.totalKB, o) then 1 else 0)
      && t.picked[..|s.picked|] == s.picked
  {
    if Takes(cap, s.totalKB, o) {
      AdvanceTakes(cap, s, o, k);
    }
  }

  /** A pick an iteration records is of the offer it ran on, which PIR or the filters admit. */
  lemma AdvancePick(cap: int32, s: PullState, o: Offer, k: nat)
    requires |s.picked| < |Advance(cap, s, o, k).picked|
    ensures Advance(cap, s, o, k).picked[|s.picked|].index == k && (o.pirNew || o.passes)
  {
  }

  /** Pick pk sits at its position in uris, with its author's and target's scope URIs before it. */
  predicate Placed(os: seq<Offer>, uris: seq<Handle>, pk: Pick) {
    pk.index < |os| && pk.position < |uris|
    && uris[pk.position] == MessageHandle(os[pk.index].scope, os[pk.index].messageId)
    && ScopeHandle(os[pk.index].scope) in uris[..pk.position]
    && ScopeHandle(os[pk.index].target) in uris[..pk.position]
  }

  /** Placement survives appending to the list. */
  lemma PlacedExtends(os: seq<Offer>, su: seq<Handle>, tu: seq<Handle>, pk: Pick)
    requires Placed(os, su, pk) && |su| <= |tu| && tu[..|su|] == su
    ensures Placed(os, tu, pk)
  {
    assert tu[pk.position] == su[pk.position];
    assert tu[..pk.position] == su[..pk.position];
  }

  /** The pick an iteration records is placed. */
  lemma AdvancePlaced(cap: int32, os: seq<Offer>, s: PullState, k: nat)
    requires k < |os|
    requires |s.picked| < |Advance(cap, s, os[k], k).picked|
    ensures var t := Advance(cap, s, os[k], k); Placed(os, t.uris, t.picked[|s.picked|])
  {
    AdvanceTakes(cap, s, os[k], k);
  }

  /** A message URI an iteration appends is at the position of the pick it records. */
  lemma AdvanceUriPicked(cap: int32, s: PullState, o: Offer, k: nat, p: nat)
    requires |s.uris| <= p < |Advance(cap, s, o, k).uris| && Advance(cap, s, o, k).uris[p].MessageHandle?
    ensures |s.picked| < |Advance(cap, s, o, k).picked| && Advance(cap, s, o, k).picked[|s.picked|].position == p
  {
    AdvanceTakes(cap, s, o, k);
  }

  /** A scope URI an iteration appends is not in the list before it. */
  lemma AdvanceNoRepeat(cap: int32, s: PullState, o: Offer, k: nat, q: nat)
    requires |s.uris| <= q < |Advance(cap, s, o, k).uris| && Advance(cap, s, o, k).uris[q].ScopeHandle?
    ensures Advance(cap, s, o, k).uris[q] !in Advance(cap, s, o, k).uris[..q]
  {
    AdvanceTakes(cap, s, o, k);
  }

  // ------------------------------------------------- the pass, over offers

  /** The message pass only appends to the state it starts from. */
  lemma {:induction false} PassExtends(cap: int32, os: seq<Offer>, start: PullState, n: nat)
    requires n <= |os|
    ensures var s := MessagePass(cap, os, start, n);
      |start.uris| <= |s.uris| && s.uris[..|start.uris|] == start.uris
      && |start.picked| <= |s.picked| && s.picked[..|start.picked|] == start.picked
  {
    if n > 0 {
      PassExtends(cap, os, start, n - 1);
      var s := MessagePass(cap, os, start, n - 1);
      var t := Advance(cap, s, os[n - 1], n - 1);
      assert MessagePass(cap, os, start, n) == t;
      AdvanceExtends(cap, s, os[n - 1], n - 1);
      assert t.uris[..|start.uris|] == t.uris[..|s.uris|][..|start.uris|];
      assert t.picked[..|start.picked|] == t.picked[..|s.picked|][..|start.picked|];
    }
  }

  lemma {:induction false} PassPlaced(cap: int32, os: seq<Offer>, start: PullState, n: nat, j: nat)
    requires n <= |os| && start.picked == [] && j < |MessagePass(cap, os, start, n).picked|
    ensures Placed(os, MessagePass(cap, os, start, n).uris, MessagePass(cap, os, start, n).picked[j])
  {
    if n == 0 {
      assert false;
    }
    var s := MessagePass(cap, os, start, n - 1);
    var t := Advance(cap, s, os[n - 1], n - 1);
    assert MessagePass(cap, os, start, n) == t;
    AdvanceExtends(cap, s, os[n - 1], n - 1);
    if j < |s.picked| {
      PassPlaced(cap, os, start, n - 1, j);
      assert t.picked[j] == s.picked[j];
      PlacedExtends(os, s.uris, t.uris, s.picked[j]);
    } else {
      AdvancePlaced(cap, os, s, n - 1);
    }
  }

  lemma {:induction false} PassUrisPicked(cap: int32, os: seq<Offer>, start: PullState, n: nat, p: nat)
    returns (j: nat)
    requires n <= |os| && start.picked == []
    requires forall q :: 0 <= q < |start.uris| ==> start.uris[q].ScopeHandle?
    requires p < |MessagePass(cap, os, start, n).uris| && MessagePass(cap, os, start, n).uris[p].MessageHandle?
    ensures j < |MessagePass(cap, os, start, n).picked| && MessagePass(cap, os, start, n).picked[j].position == p
  {
    if n == 0 {
      assert false;
    }
    var s := MessagePass(cap, os, start, n - 1);
    var t := Advance(cap, s, os[n - 1], n - 1);
    assert MessagePass(cap, os, start, n) == t;
    AdvanceExtends(cap, s, os[n - 1], n - 1);
    if p < |s.uris| {
      assert t.uris[p] == s.uris[p];
      j := PassUrisPicked(cap, os, start, n - 1, p);
      assert t.picked[j] == s.picked[j];
    } else {
      AdvanceUriPicked(cap, s, os[n - 1], n - 1, p);
      j := |s.picked|;
    }
  }

  lemma {:induction false} PassNoRepeat(cap: int32, os: seq<Offer>, start: PullState, n: nat, q: nat)
    requires n <= |os|
    requires |start.uris| <= q < |MessagePass(cap, os, start, n).uris|
    requires MessagePass(cap, os, start, n).uris[q].ScopeHandle?
    ensures MessagePass(cap, os, start, n).uris[q] !in MessagePass(cap, os, start, n).uris[..q]
  {
    if n == 0 {
      assert false;
    }
    var s := MessagePass(cap, os, start, n - 1);
    var t := Advance(cap, s, os[n - 1], n - 1);
    assert MessagePass(cap, os, start, n) == t;
    AdvanceExtends(cap, s, os[n - 1], n - 1);
    if q < |s.uris| {
      assert t.uris[q] == s.uris[q];
      PassNoRepeat(cap, os, start, n - 1, q);
      assert t.uris[..q] == s.uris[..q];
    } else {
      AdvanceNoRepeat(cap, s, os[n - 1], n - 1, q);
    }
  }

  lemma {:induction false} PassPickAdmitted(cap: int32, os: seq<Offer>, start: PullState, n: nat, j: nat)
    requires n <= |os| && start.picked == [] && j < |MessagePass(cap, os, start, n).picked|
    ensures MessagePass(cap, os, start, n).picked[j].index < n
    ensures var o := os[MessagePass(cap, os, start, n).picked[j].index]; o.pirNew || o.passes
  {
    if n == 0 {
      assert false;
    }
    var s := MessagePass(cap, os, start, n - 1);
    var t := Advance(cap, s, os[n - 1], n - 1);
    assert MessagePass(cap, os, start, n) == t;
    AdvanceExtends(cap, s, os[n - 1], n - 1);
    if j < |s.picked| {
      PassPickAdmitted(cap, os, start, n - 1, j);
      assert t.picked[j] == s.picked[j];
    } else {
      AdvancePick(cap, s, os[n - 1], n - 1);
    }
  }

  lemma {:induction false} PassIncreasing(cap: int32, os: seq<Offer>, start: PullState, n: nat, i: nat, j: nat)
    requires n <= |os| && start.picked == [] && i < j < |MessagePass(cap, os, start, n).picked|
    ensures MessagePass(cap, os, start, n).picked[i].index < MessagePass(cap, os, start, n).picked[j].index
  {
    if n == 0 {
      assert false;
    }
    var s := MessagePass(cap, os, start, n - 1);
    var t := Advance(cap, s, os[n - 1], n - 1);
    assert MessagePass(cap, os, start, n) == t;
    AdvanceExtends(cap, s, os[n - 1], n - 1);
    assert t.picked[i] == s.picked[i];
    if j < |s.picked| {
      PassIncreasing(cap, os, start, n - 1, i, j);
      assert t.picked[j] == s.picked[j];
    } else {
      AdvancePick(cap, s, os[n - 1], n - 1);
      PassPickAdmitted(cap, os, start, n - 1, i);
    }
  }

  /**
   * An offer the loop takes whatever the running total, because PIR takes it
   * or because it passes the filters and there is no total cap, is picked.
   */
  lemma {:induction false} PassTakesAlways(cap: int32, os: seq<Offer>, start: PullState, n: nat, k: nat)
    returns (j: nat)
    requires n <= |os| && k < n && (os[k].pirNew || (os[k].passes && cap <= 0))
    ensures j < |MessagePass(cap, os, start, n).picked| && MessagePass(cap, os, start, n).picked[j].index == k
  {
    var s := MessagePass(cap, os, start, n - 1);
    var t := Advance(cap, s, os[n - 1], n - 1);
    assert MessagePass(cap, os, start, n) == t;
    AdvanceExtends(cap, s, os[n - 1], n - 1);
    if k < n - 1 {
      j := PassTakesAlways(cap, os, start, n - 1, k);
      assert t.picked[j] == s.picked[j];
    } else {
      AdvancePick(cap, s, os[n - 1], n - 1);
      j := |s.picked|;
    }
  }

  /** The KB the picks claim, by their offers' sizes. */
  function PickedKB(os: seq<Offer>, picked: seq<Pick>): int {
    if picked == [] then 0
    else
      var k := picked[|picked| - 1].index;
      PickedKB(os, picked[..|picked| - 1]) + (if k < |os| then os[k].kb else 0)
  }

  /** Outside PIR, an iteration keeps the total equal to the picks' sizes and under the cap. */
  lemma AdvanceSize(cap: int32, os: seq<Offer>, s: PullState, k: nat)
    requires k < |os| && cap > 0 && !os[k].pirNew && os[k].kb >= 0
    requires 0 <= s.totalKB == PickedKB(os, s.picked) <= cap
    ensures var t := Advance(cap, s, os[k], k); 0 <= t.totalKB == PickedKB(os, t.picked) <= cap
  {
    var t := Advance(cap, s, os[k], k);
    if Takes(cap, s.totalKB, os[k]) {
      AdvanceTakes(cap, s, os[k], k);
      assert t.picked[..|t.picked| - 1] == s.picked;
    }
  }

  lemma {:induction false} PassSize(cap: int32, os: seq<Offer>, start: PullState, n: nat)
    requires n <= |os| && start.picked == [] && start.totalKB == 0 && cap > 0
    requires forall k :: 0 <= k < |os| ==> !os[k].pirNew && os[k].kb >= 0
    ensures var s := MessagePass(cap, os, start, n); 0 <= s.totalKB == PickedKB(os, s.picked) <= cap
  {
    if n > 0 {
      PassSize(cap, os, start, n - 1);
      var s := MessagePass(cap, os, start, n - 1);
      assert MessagePass(cap, os, start, n) == Advance(cap, s, os[n - 1], n - 1);
      AdvanceSize(cap, os, s, n - 1);
    }
  }

  // ----------------------------------------------------------- the results

  /** The message pass only appends: the channel pass is a prefix of the result. */
  lemma PullKeepsChannelPass(m: Manifest, st: PullStrategy, local: LocalView)
    ensures var c := ChannelPass(m, st, local, |m.channels|);
      |c| <= |SelectURIsToPull(m, st, local)| && SelectURIsToPull(m, st, local)[..|c|] == c
  {
    PassExtends(st.maxKBTotal, Offers(m, st, local), Start(m, st, local), |m.messages|);
  }

  /** The URI of message k. */
  function UriOf(m: Manifest, k: nat): Handle {
    if k < |m.messages| then MessageHandle(ScopeOf(m, k), m.messages[k].messageId) else ScopeHandle([])
  }

  /**
   * Every message asked for is preceded by its author's and its target's
   * scope URIs.
   */
  lemma PullDependenciesFirst(m: Manifest, st: PullStrategy, local: LocalView, j: nat)
    requires j < |PullRun(m, st, local).picked|
    ensures var r := PullRun(m, st, local); var pk := r.picked[j];
      pk.index < |m.messages| && pk.position < |r.uris| && r.uris[pk.position] == UriOf(m, pk.index)
      && ScopeHandle(ScopeOf(m, pk.index)) in r.uris[..pk.position]
      && ScopeHandle(TargetOf(m, pk.index)) in r.uris[..pk.position]
  {
    var os := Offers(m, st, local);
    PassPlaced(st.maxKBTotal, os, Start(m, st, local), |m.messages|, j);
  }

  /**
   * Every message URI in the list is that of a picked message (the channel
   * pass adds scope URIs only): j is the pick that put it there.
   */
  lemma PullMessageUrisPicked(m: Manifest, st: PullStrategy, local: LocalView, p: nat)
    returns (j: nat)
    requires p < |SelectURIsToPull(m, st, local)| && SelectURIsToPull(m, st, local)[p].MessageHandle?
    ensures j < |PullRun(m, st, local).picked| && PullRun(m, st, local).picked[j].position == p
  {
    ChannelPassMembers(m, st, local, |m.channels|);
    j := PassUrisPicked(st.maxKBTotal, Offers(m, st, local), Start(m, st, local), |m.messages|, p);
  }

  /** The message pass never adds a scope URI that is already in the list. */
  lemma PullNoRepeatedScopes(m: Manifest, st: PullStrategy, local: LocalView, q: nat)
    requires |ChannelPass(m, st, local, |m.channels|)| <= q < |SelectURIsToPull(m, st, local)|
    requires SelectURIsToPull(m, st, local)[q].ScopeHandle?
    ensures SelectURIsToPull(m, st, local)[q] !in SelectURIsToPull(m, st, local)[..q]
  {
    PassNoRepeat(st.maxKBTotal, Offers(m, st, local), Start(m, st, local), |m.messages|, q);
  }

  /** Message k is admitted by the strategy's filters, or by PIR. */
  predicate Admitted(m: Manifest, st: PullStrategy, local: LocalView, k: nat) {
    k < |m.messages|
    && ((m.messages[k].IsNew() && st.includeDupForPIR)
        || PassesFilters(m.messages[k], st, local, ScopeOf(m, k), TargetOf(m, k)))
  }

  /**
   * Every message asked for passed the strategy's filters unless PIR took it
   * for being new.
   */
  lemma PullFilters(m: Manifest, st: PullStrategy, local: LocalView, j: nat)
    requires j < |PullRun(m, st, local).picked|
    ensures Admitted(m, st, local, PullRun(m, st, local).picked[j].index)
  {
    PassPickAdmitted(st.maxKBTotal, Offers(m, st, local), Start(m, st, local), |m.messages|, j);
  }

  /** Outside PIR, a message flagged new is asked for only when recent messages are wanted. */
  lemma PullNewOnlyIfRecent(m: Manifest, st: PullStrategy, local: LocalView, j: nat)
    requires !st.includeDupForPIR && j < |PullRun(m, st, local).picked|
    ensures var k := PullRun(m, st, local).picked[j].index;
      k < |m.messages| && (m.messages[k].IsNew() ==> st.includeRecentMessagesOnly)
  {
    PullFilters(m, st, local, j);
  }

  /** Picks are in index order, so each message is asked for at most once. */
  lemma PullPicksIncreasing(m: Manifest, st: PullStrategy, local: LocalView, i: nat, j: nat)
    requires i < j < |PullRun(m, st, local).picked|
    ensures PullRun(m, st, local).picked[i].index < PullRun(m, st, local).picked[j].index
  {
    PassIncreasing(st.maxKBTotal, Offers(m, st, local), Start(m, st, local), |m.messages|, i, j);
  }

  /** Under PIR every message flagged new is asked for: j is its pick. */
  lemma PullNewUnderPIR(m: Manifest, st: PullStrategy, local: LocalView, k: nat)
    returns (j: nat)
    requires st.includeDupForPIR && k < |m.messages| && m.messages[k].IsNew()
    ensures j < |PullRun(m, st, local).picked| && PullRun(m, st, local).picked[j].index == k
  {
    j := PassTakesAlways(st.maxKBTotal, Offers(m, st, local), Start(m, st, local), |m.messages|, k);
  }

  /**
   * Without a total cap the filters decide exactly: every admitted message is
   * picked (j is its pick), and its URI is in the result.
   */
  lemma PullAdmittedPicked(m: Manifest, st: PullStrategy, local: LocalView, k: nat)
    returns (j: nat)
    requires st.maxKBTotal <= 0 && Admitted(m, st, local, k)
    ensures j < |PullRun(m, st, local).picked| && PullRun(m, st, local).picked[j].index == k
    ensures UriOf(m, k) in SelectURIsToPull(m, st, local)
  {
    j := PassTakesAlways(st.maxKBTotal, Offers(m, st, local), Start(m, st, local), |m.messages|, k);
    PullDependenciesFirst(m, st, local, j);
  }

  /** The KB the picked messages claim, by their advertised maximum sizes. */
  function PulledKB(m: Manifest, picked: seq<Pick>): nat {
    if picked == [] then 0
    else
      var k := picked[|picked| - 1].index;
      PulledKB(m, picked[..|picked| - 1]) + (if k < |m.messages| then m.messages[k].MaxSizeKB() else 0)
  }

  lemma {:induction false} PickedKBOfOffers(m: Manifest, st: PullStrategy, local: LocalView, picked: seq<Pick>)
    ensures PickedKB(Offers(m, st, local), picked) == PulledKB(m, picked)
  {
    if picked != [] {
      PickedKBOfOffers(m, st, local, picked[..|picked| - 1]);
    }
  }

  /**
   * Outside PIR and with a total cap, the running total is the sum of the
   * picked messages' maximum sizes and never exceeds the cap.
   */
  lemma PullSizeCap(m: Manifest, st: PullStrategy, local: LocalView)
    requires !st.includeDupForPIR && st.maxKBTotal > 0
    ensures PullRun(m, st, local).totalKB == PulledKB(m, PullRun(m, st, local).picked) <= st.maxKBTotal
  {
    PassSize(st.maxKBTotal, Offers(m, st, local), Start(m, st, local), |m.messages|);
    PickedKBOfOffers(m, st, local, PullRun(m, st, local).picked);
  }

  // --------------------------------------------------------------- scenario

  /**
   * An archive with one channel (version 5) and one new message in it, a
   * default strategy, and a client holding version 2 of the channel: only
   * the channel's metadata is asked for, since a new message is skipped
   * unless the strategy asks for recent messages.
   */
  lemma PullScenario(a: seq<byte>, m: Manifest, local: LocalView)
    requires |m.channels| == 1 && m.channels[0].scope == Some(a) && m.channels[0].version == 5
    requires |m.messages| == 1 && m.messages[0].IsNew()
    requires local.channelVersion(a) == 2
    ensures SelectURIsToPull(m, DEFAULT_PULL_STRATEGY, local) == [ScopeHandle(a)]
  {
    var st := DEFAULT_PULL_STRATEGY;
    var os := Offers(m, st, local);
    assert ChannelPass(m, st, local, 0) == [];
    assert ChannelPicked(m.channels[0], st, local);
    assert ChannelPass(m, st, local, 1) == [ScopeHandle(a)];
    assert !Takes(st.maxKBTotal, 0, os[0]);
    assert MessagePass(st.maxKBTotal, os, Start(m, st, local), 1) == Start(m, st, local);
  }
}
