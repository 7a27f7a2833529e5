/**
 * Questions asked of a shared archive's index (a Manifest value): which of
 * its channel descriptors has a given scope, whether it lists a message,
 * how many of its records are flagged new, and whether it is old enough to
 * fetch again. Also the handles that the pull and push selections return.
 */
module Index {
  import opened Wrappers
  import opened Wire
  import opened Descriptors
  import opened Codec

  /** A scope URI (a channel's metadata) or a message URI (scope and message id). */
  datatype Handle = ScopeHandle(scope: seq<byte>) | MessageHandle(scope: seq<byte>, messageId: int64)

  /** Every message's scope and target index names a channel of the index. */
  predicate Indexed(m: Manifest) {
    forall i :: 0 <= i < |m.messages| ==>
      0 <= m.messages[i].scopeIndex < |m.channels| && 0 <= m.messages[i].targetIndex < |m.channels|
  }

  /**
   * Every message's scope index names a channel of the index. The push
   * selection reads only the scope index, so this is all it needs; a target
   * index may be -1 ("no target").
   */
  predicate ScopesIndexed(m: Manifest) {
    forall i :: 0 <= i < |m.messages| ==> 0 <= m.messages[i].scopeIndex < |m.channels|
  }

  /** Every channel of the index has a scope (the reader always sets one). */
  predicate ScopesSet(m: Manifest) {
    forall i :: 0 <= i < |m.channels| ==> m.channels[i].scope.Some?
  }

  /** The scope of the channel at index k, where there is one. */
  function ScopeAt(m: Manifest, k: int): Option<seq<byte>> {
    if 0 <= k < |m.channels| then m.channels[k].scope else None
  }

  /** A channel's scope bytes (empty where it has none). */
  function ScopeBytes(c: ChannelRec): seq<byte> {
    match c.scope
    case Some(s) => s
    case None => []
  }

  /** The scope bytes of the channel at index k (empty where there is none). */
  function ScopeBytesAt(m: Manifest, k: int): seq<byte> {
    if 0 <= k < |m.channels| then ScopeBytes(m.channels[k]) else []
  }

  /** The per-message cap in KB that new pull and push strategies start with. */
  const DEFAULT_MAX_SIZE_KB: int32 := 512

  // ------------------------------------------------------------ getChannel

  /** The index of the first channel whose scope is `hash`: the channel getChannel returns. */
  function FirstWithScope(cs: seq<ChannelRec>, hash: seq<byte>): (r: Option<nat>)
    ensures r.Some? ==> r.value < |cs| && cs[r.value].scope == Some(hash)
    ensures r.Some? ==> forall j :: 0 <= j < r.value ==> cs[j].scope != Some(hash)
    ensures r.None? ==> forall j :: 0 <= j < |cs| ==> cs[j].scope != Some(hash)
  {
    if cs == [] then None
    else if cs[0].scope == Some(hash) then Some(0)
    else match FirstWithScope(cs[1..], hash)
      case None => None
      case Some(i) => Some(i + 1)
  }

  /** getChannel: the first channel with that scope, if the index lists one. */
  function ChannelWithScope(m: Manifest, hash: seq<byte>): Option<ChannelRec> {
    match FirstWithScope(m.channels, hash)
    case None => None
    case Some(i) => Some(m.channels[i])
  }

  // --------------------------------------------------------------- isKnown

  /** isKnown: some message of the index has that id and was authorized in a channel with that scope. */
  predicate Known(m: Manifest, hash: seq<byte>, messageId: int64) {
    exists i :: 0 <= i < |m.messages| && m.messages[i].messageId == messageId
      && ScopeAt(m, m.messages[i].scopeIndex) == Some(hash)
  }

  // ----------------------------------------------------------------- counts

  /** countNewChannels: the channels flagged new. */
  function NewChannelCount(cs: seq<ChannelRec>): nat {
    if cs == [] then 0
    else NewChannelCount(cs[..|cs| - 1]) + (if cs[|cs| - 1].IsNew() then 1 else 0)
  }

  /** countNewMessages: the messages flagged new. */
  function NewMessageCount(ms: seq<MessageRec>): nat {
    if ms == [] then 0
    else NewMessageCount(ms[..|ms| - 1]) + (if ms[|ms| - 1].IsNew() then 1 else 0)
  }

  /** At most every channel is new; none is exactly when the count is 0, all exactly when it is the total. */
  lemma {:induction false} NewChannelCountBounds(cs: seq<ChannelRec>)
    ensures NewChannelCount(cs) <= |cs|
    ensures NewChannelCount(cs) == 0 <==> forall i :: 0 <= i < |cs| ==> !cs[i].IsNew()
    ensures NewChannelCount(cs) == |cs| <==> forall i :: 0 <= i < |cs| ==> cs[i].IsNew()
  {
    if cs != [] {
      var init := cs[..|cs| - 1];
      NewChannelCountBounds(init);
      assert forall i :: 0 <= i < |init| ==> init[i] == cs[i];
    }
  }

  lemma {:induction false} NewMessageCountBounds(ms: seq<MessageRec>)
    ensures NewMessageCount(ms) <= |ms|
    ensures NewMessageCount(ms) == 0 <==> forall i :: 0 <= i < |ms| ==> !ms[i].IsNew()
    ensures NewMessageCount(ms) == |ms| <==> forall i :: 0 <= i < |ms| ==> ms[i].IsNew()
  {
    if ms != [] {
      var init := ms[..|ms| - 1];
      NewMessageCountBounds(init);
      assert forall i :: 0 <= i < |init| ==> init[i] == ms[i];
    }
  }

  // ------------------------------------------------------------- refreshing

  /** One hour in milliseconds. */
  const HOUR_MS: int := 3_600_000

  /**
   * getRefreshable: the index was loaded at `loadedOn` and the archive
   * rebuilds it every few hours; once that period has passed by `now` (Java
   * long arithmetic, wrapping) it is worth fetching again.
   */
  predicate Refreshable(about: AboutRec, loadedOn: int64, now: int64) {
    WrapLong(loadedOn + about.PublishRebuildFrequencyHours() * HOUR_MS) < now
  }

  /** Once refreshable, an index stays refreshable as the clock moves on. */
  lemma RefreshableLater(about: AboutRec, loadedOn: int64, now: int64, later: int64)
    requires now <= later && Refreshable(about, loadedOn, now)
    ensures Refreshable(about, loadedOn, later)
  {
  }

  /**
   * Unless the load time is within a day of the largest long, an index is
   * refreshable exactly when more than its rebuild period has passed: never
   * within the first hour, always after a day.
   */
  lemma RefreshableAfterPeriod(about: AboutRec, loadedOn: int64, now: int64)
    requires loadedOn <= LONG_MAX - 24 * HOUR_MS
    ensures Refreshable(about, loadedOn, now) <==> now - loadedOn > about.PublishRebuildFrequencyHours() * HOUR_MS
    ensures now - loadedOn <= HOUR_MS ==> !Refreshable(about, loadedOn, now)
    ensures now - loadedOn > 24 * HOUR_MS ==> Refreshable(about, loadedOn, now)
  {
    var p := about.PublishRebuildFrequencyHours() * HOUR_MS;
    assert HOUR_MS <= p <= 24 * HOUR_MS;
    assert LONG_MIN <= loadedOn + p <= LONG_MAX;
  }
}
