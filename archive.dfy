/**
 * The SharedArchive object: an archive's index as a client holds it (the
 * about record, the channel and message descriptors, and when it was
 * loaded), with the queries, the serializer and the pull and push
 * selections that the client runs over it. Each method is proved against
 * the function of the index value that specifies it.
 */
module Archive {
  import opened Wrappers
  import opened Wire
  import opened Descriptors
  import opened Codec
  import opened Records
  import opened Index
  import opened Pull
  import opened Push

  class SharedArchive {
    var about: AboutRec
    var channels: seq<ChannelRec>
    var messages: seq<MessageRec>
    /** When the index was loaded (the clock at construction). */
    var loadedOn: int64

    /** The index this object holds. */
    function Contents(): Manifest
      reads this
    {
      Manifest(about, channels, messages)
    }

    /** A new archive object holds no records and remembers the clock. */
    constructor (now: int64)
      ensures Contents() == Manifest(EMPTY_ABOUT, [], []) && loadedOn == now
    {
      about := EMPTY_ABOUT;
      channels := [];
      messages := [];
      loadedOn := now;
    }

    method SetChannels(cs: seq<ChannelRec>)
      modifies this
      ensures Contents() == old(Contents()).(channels := cs) && loadedOn == old(loadedOn)
    {
      channels := cs;
    }

    method SetMessages(ms: seq<MessageRec>)
      modifies this
      ensures Contents() == old(Contents()).(messages := ms) && loadedOn == old(loadedOn)
    {
      messages := ms;
    }

    method SetAbout(a: AboutRec)
      modifies this
      ensures Contents() == old(Contents()).(about := a) && loadedOn == old(loadedOn)
    {
      about := a;
    }

    // ------------------------------------------------------------ queries

    /** getRefreshable, with the clock as a parameter. */
    method GetRefreshable(now: int64) returns (r: bool)
      ensures r == Refreshable(about, loadedOn, now)
    {
      r := WrapLong(loadedOn + about.PublishRebuildFrequencyHours() * 60 * 60 * 1000) < now;
    }

    method CountTotalChannels() returns (n: nat)
      ensures n == |channels|
    {
      n := |channels|;
    }

    method CountTotalMessages() returns (n: nat)
      ensures n == |messages|
    {
      n := |messages|;
    }

    method CountNewChannels() returns (n: nat)
      ensures n == NewChannelCount(channels)
    {
      n := 0;
      for i := 0 to |channels|
        invariant n == NewChannelCount(channels[..i])
      {
        assert channels[..i + 1][..i] == channels[..i];
        if channels[i].IsNew() {
          n := n + 1;
        }
      }
      assert channels[..|channels|] == channels;
    }

    method CountNewMessages() returns (n: nat)
      ensures n == NewMessageCount(messages)
    {
      n := 0;
      for i := 0 to |messages|
        invariant n == NewMessageCount(messages[..i])
      {
        assert messages[..i + 1][..i] == messages[..i];
        if messages[i].IsNew() {
          n := n + 1;
        }
      }
      assert messages[..|messages|] == messages;
    }

    /** getChannel: a linear search for the first channel with that scope. */
    method GetChannel(hash: seq<byte>) returns (r: Option<ChannelRec>)
      ensures r == ChannelWithScope(Contents(), hash)
    {
      for i := 0 to |channels|
        invariant forall j :: 0 <= j < i ==> channels[j].scope != Some(hash)
      {
        if channels[i].scope == Some(hash) {
          return Some(channels[i]);
        }
      }
      return None;
    }

    /**
     * isKnown: a linear search for a message with that id whose author
     * channel has that scope. The author index of every message with that
     * id must name a channel (the array access would throw otherwise).
     */
    method IsKnown(hash: seq<byte>, messageId: int64) returns (r: bool)
      requires forall i :: 0 <= i < |messages| && messages[i].messageId == messageId ==>
        0 <= messages[i].scopeIndex < |channels|
      ensures r == Known(Contents(), hash, messageId)
    {
      for i := 0 to |messages|
        invariant forall j :: 0 <= j < i ==>
          !(messages[j].messageId == messageId && ScopeAt(Contents(), messages[j].scopeIndex) == Some(hash))
      {
        if messageId == messages[i].messageId {
          var scope := channels[messages[i].scopeIndex];
          if scope.scope == Some(hash) {
            return true;
          }
        }
      }
      return false;
    }

    // ------------------------------------------------------- serialization

    /**
     * write: the about record, then the channel count and each channel, then
     * the message count and each message.
     */
    method Write() returns (r: Result<seq<byte>, Fault>)
      ensures r == EncodeManifest(Contents())
    {
      var a := EncodeAbout(about);
      if a.Failure? {
        return Failure(a.error);
      }
      Pow256Table();
      var nc := WriteLong(4, |channels|);
      if nc.Failure? {
        return Failure(nc.error);
      }
      var cbody: seq<byte> := [];
      for i := 0 to |channels|
        invariant EncodeChannels(channels) == Then(cbody, EncodeChannels(channels[i..]))
      {
        EncodeChannelsStep(channels, i);
        var e := EncodeChannel(channels[i]);
        if e.Failure? {
          return Failure(e.error);
        }
        ThenAppend(cbody, e.value, EncodeChannels(channels[i + 1..]));
        cbody := cbody + e.value;
      }
      AppendEmpty(cbody);
      var nm := WriteLong(4, |messages|);
      if nm.Failure? {
        return Failure(nm.error);
      }
      var mbody: seq<byte> := [];
      for i := 0 to |messages|
        invariant EncodeMessages(messages) == Then(mbody, EncodeMessages(messages[i..]))
      {
        EncodeMessagesStep(messages, i);
        var e := EncodeMessage(messages[i]);
        if e.Failure? {
          return Failure(e.error);
        }
        ThenAppend(mbody, e.value, EncodeMessages(messages[i + 1..]));
        mbody := mbody + e.value;
      }
      AppendEmpty(mbody);
      r := Success(a.value + (nc.value + cbody) + (nm.value + mbody));
    }

    /**
     * read: the about record, then the counted channels, then the counted
     * messages; the object takes the new records only once all of them are
     * read, so a stream that fails leaves it as it was.
     */
    method Read(s: seq<byte>) returns (r: Result<seq<byte>, Fault>)
      modifies this
      ensures r.Success? <==> DecodeManifest(s).Success?
      ensures r.Success? ==> Contents() == DecodeManifest(s).value.0 && r.value == DecodeManifest(s).value.1
      ensures r.Failure? ==> Contents() == old(Contents()) && r.error == DecodeManifest(s).error
      ensures loadedOn == old(loadedOn)
    {
      var a := DecodeAbout(s);
      if a.Failure? {
        return Failure(a.error);
      }
      Pow256Table();
      var nc := ReadLong(4, a.value.1);
      if nc.Failure? {
        return Failure(nc.error);
      }
      var kc := ArrayCount(nc.value.0);
      if kc.Failure? {
        return Failure(kc.error);
      }
      var chans := ReadChannels(kc.value, nc.value.1);
      if chans.Failure? {
        return Failure(chans.error);
      }
      var nm := ReadLong(4, chans.value.1);
      if nm.Failure? {
        return Failure(nm.error);
      }
      var km := ArrayCount(nm.value.0);
      if km.Failure? {
        return Failure(km.error);
      }
      var msgs := ReadMessages(km.value, nm.value.1);
      if msgs.Failure? {
        return Failure(msgs.error);
      }
      about := a.value.0;
      channels := chans.value.0;
      messages := msgs.value.0;
      r := Success(msgs.value.1);
    }
    // --------------------------------------------------------------- pull

    /**
     * selectURIsToPull: the channel pass, then the message pass. Every
     * message's author and target index must name a channel (the array
     * accesses would throw otherwise).
     */
    method SelectURIsToPull(st: PullStrategy, local: LocalView) returns (uris: seq<Handle>)
      requires Indexed(Contents())
      ensures uris == Pull.SelectURIsToPull(Contents(), st, local)
    {
      uris := PullChannels(st, local);
      var s := PullState(uris, 0, []);
      ghost var os := Offers(Contents(), st, local);
      for i := 0 to |messages|
        invariant s == MessagePass(st.maxKBTotal, os, Start(Contents(), st, local), i)
      {
        s := PullMessage(st, local, s, i);
      }
      uris := s.uris;
    }

    /** The channel loop of selectURIsToPull. */
    method PullChannels(st: PullStrategy, local: LocalView) returns (uris: seq<Handle>)
      ensures uris == ChannelPass(Contents(), st, local, |channels|)
    {
      uris := [];
      for i := 0 to |channels|
        invariant uris == ChannelPass(Contents(), st, local, i)
      {
        var scope := ScopeBytes(channels[i]);
        if channels[i].IsNew() && st.includeDupForPIR {
          uris := uris + [ScopeHandle(scope)];
        } else {
          var knownVersion := local.channelVersion(scope);
          if st.knownChannelsOnly && knownVersion < 0 {
            continue;
          }
          if channels[i].version > knownVersion {
            uris := uris + [ScopeHandle(scope)];
          }
        }
      }
    }

    /** One iteration of selectURIsToPull's message loop, over message i. */
    method PullMessage(st: PullStrategy, local: LocalView, s: PullState, i: nat) returns (t: PullState)
      requires Indexed(Contents()) && i < |messages|
      ensures t == Advance(st.maxKBTotal, s, OfferOf(Contents(), st, local, i), i)
    {
      var msg := messages[i];
      var scope := ScopeBytes(channels[msg.scopeIndex]);
      var target := ScopeBytes(channels[msg.targetIndex]);
      var totalAllocatedKB := s.totalKB;
      if msg.IsNew() && st.includeDupForPIR {
        var uris := AddAbsent(AddAbsent(s.uris, ScopeHandle(scope)), ScopeHandle(target));
        return PullState(uris + [MessageHandle(scope, msg.messageId)], WrapInt(totalAllocatedKB + msg.MaxSizeKB()),
          s.picked + [Pick(i, |uris|)]);
      }
      var ok := PullFilters(st, local, msg, scope, target);
      if !ok {
        return s;
      }
      if st.maxKBTotal > 0 && totalAllocatedKB + msg.MaxSizeKB() > st.maxKBTotal {
        return s;
      }
      var uris := AddAbsent(AddAbsent(s.uris, ScopeHandle(scope)), ScopeHandle(target));
      totalAllocatedKB := WrapInt(totalAllocatedKB + msg.MaxSizeKB());
      t := PullState(uris + [MessageHandle(scope, msg.messageId)], totalAllocatedKB, s.picked + [Pick(i, |uris|)]);
    }

    /** The filters of selectURIsToPull's message loop before the total cap, in the source's order. */
    method PullFilters(st: PullStrategy, local: LocalView, msg: MessageRec, scope: seq<byte>, target: seq<byte>)
      returns (ok: bool)
      ensures ok == PassesFilters(msg, st, local, scope, target)
    {
      if st.maxKBPerMessage > 0 && msg.MaxSizeKB() > st.maxKBPerMessage {
        return false;
      }
      if msg.IsPBE() && !st.includePBEMessages {
        return false;
      }
      if msg.IsPrivate() && !st.includePrivateMessages {
        return false;
      }
      if msg.IsNew() && !st.includeRecentMessagesOnly {
        return false;
      }
      var targetChanId := local.channelId(target);
      var scopeChanId := local.channelId(scope);
      if (scopeChanId < 0 || targetChanId < 0) && st.knownChannelsOnly {
        return false;
      }
      return true;
    }

    // --------------------------------------------------------------- push

    /**
     * scheduleNew over an inventory of channel directories: for each
     * directory that proceeds, its scope when the archive needs its
     * metadata, then each message that passes the filters and fits under the
     * total cap, recording what each message depends on. Every message's
     * author index must name a channel of the index.
     */
    method ScheduleNew(st: PushStrategy, env: PushEnv, inv: seq<LocalChannel>)
      returns (rv: seq<Handle>, deps: map<Handle, Handle>)
      requires ScopesIndexed(Contents())
      ensures rv == Push.ScheduleNew(Contents(), st, env, inv).rv
      ensures deps == Push.ScheduleNew(Contents(), st, env, inv).deps
    {
      ghost var css := Plans(Contents(), st, env, inv);
      var s := EMPTY_PUSH;
      var step := 0;
      for i := 0 to |inv|
        invariant s == Run(st.maxKBTotal, Flatten(css[..i])) && step == |Flatten(css[..i])|
      {
        assert css[..i + 1][..i] == css[..i];
        s, step := ScheduleChannel(st, env, inv, i, s, step, Flatten(css[..i]));
      }
      assert css[..|inv|] == css;
      rv, deps := s.rv, s.deps;
    }

    /** One iteration of scheduleNew's directory loop, over directory i, after the steps `done`. */
    method ScheduleChannel(st: PushStrategy, env: PushEnv, inv: seq<LocalChannel>, i: nat, s: PushState, step: nat,
      ghost done: seq<Step>)
      returns (t: PushState, next: nat)
      requires ScopesIndexed(Contents()) && i < |inv|
      requires s == Run(st.maxKBTotal, done) && step == |done|
      ensures t == Run(st.maxKBTotal, done + ChannelSteps(Contents(), st, env, inv, i))
      ensures next == |done + ChannelSteps(Contents(), st, env, inv, i)|
    {
      var c := inv[i];
      var remChan := GetChannel(c.scope);
      if about.WantKnownChannelsOnly() && remChan.None? {
        AppendEmpty(done);
        return s, step;
      }
      var sendMeta := remChan.None? || remChan.value.version < c.version;
      ghost var head: seq<Step> := [];
      t, next := s, step;
      if sendMeta {
        if c.hasMeta {
          RunSnoc(st.maxKBTotal, done, Announce(c.scope));
          t := s.(rv := s.rv + [ScopeHandle(c.scope)], origin := s.origin + [step]);
          next := step + 1;
          head := [Announce(c.scope)];
        } else {
          AppendEmpty(done);
          return s, step;
        }
      }
      AppendEmpty(done);
      t, next := ScheduleMessages(st, env, inv, i, t, next, done + head);
      Assoc(done, head, MessageSteps(Contents(), st, env, inv, i));
    }

    /** scheduleNew's message loop over directory i, after the steps `done`. */
    method ScheduleMessages(st: PushStrategy, env: PushEnv, inv: seq<LocalChannel>, i: nat, s: PushState, step: nat,
      ghost done: seq<Step>)
      returns (t: PushState, next: nat)
      requires ScopesIndexed(Contents()) && i < |inv|
      requires s == Run(st.maxKBTotal, done) && step == |done|
      ensures t == Run(st.maxKBTotal, done + MessageSteps(Contents(), st, env, inv, i))
      ensures next == |done + MessageSteps(Contents(), st, env, inv, i)|
    {
      ghost var ms := MessageSteps(Contents(), st, env, inv, i);
      t, next := s, step;
      assert ms[..0] == [];
      AppendEmpty(done);
      for j := 0 to |inv[i].messages|
        invariant t == Run(st.maxKBTotal, done + ms[..j]) && next == |done + ms[..j]|
      {
        assert ms[..j + 1] == ms[..j] + [ms[j]];
        Assoc(done, ms[..j], [ms[j]]);
        RunSnoc(st.maxKBTotal, done + ms[..j], ms[j]);
        t := ScheduleMessage(st, env, inv, i, j, t, next);
        next := next + 1;
      }
      assert ms[..|inv[i].messages|] == ms;
    }

    /** One iteration of scheduleNew's message loop, over message j of directory i (which proceeds). */
    method ScheduleMessage(st: PushStrategy, env: PushEnv, inv: seq<LocalChannel>, i: nat, j: nat, s: PushState, k: nat)
      returns (t: PushState)
      requires ScopesIndexed(Contents()) && i < |inv| && j < |inv[i].messages|
      ensures t == Apply(st.maxKBTotal, s, ConsiderAt(Contents(), st, env, inv, i, j), k)
    {
      var c := inv[i];
      var msg := c.messages[j];
      var ok := PushFilters(st, env, c, msg);
      if !ok {
        return s;
      }
      var lenKB := JavaDiv(WrapLong(msg.length + 1023), 1024);
      if st.maxKBTotal > 0 && lenKB + s.totalKB > st.maxKBTotal {
        return s;
      }
      var msgURI := MessageHandle(c.scope, msg.messageId);
      var deps := s.deps;
      if msg.targetId >= 0 && c.channelId != msg.targetId {
        deps := deps[msgURI := ScopeHandle(env.channelHash(msg.targetId))];
      } else if msg.authorId >= 0 && c.channelId != msg.authorId {
        deps := deps[msgURI := ScopeHandle(env.channelHash(msg.authorId))];
      }
      t := PushState(s.rv + [msgURI], deps, s.totalKB + lenKB, s.origin + [k]);
    }

    /** The filters of scheduleNew's message loop before the total cap, in the source's order. */
    method PushFilters(st: PushStrategy, env: PushEnv, c: LocalChannel, msg: LocalMessage) returns (ok: bool)
      requires ScopesIndexed(Contents())
      ensures ok == Eligible(Contents(), st, env, c, msg)
    {
      if msg.messageId < 0 {
        return false;
      }
      var known := IsKnown(c.scope, msg.messageId);
      if known {
        return false;
      }
      var lenKB := JavaDiv(WrapLong(msg.length + 1023), 1024);
      if lenKB > about.MaxMessageSize() {
        return false;
      }
      if st.maxKBPerMessage > 0 && lenKB > st.maxKBPerMessage {
        return false;
      }
      if !about.WantPBE() && msg.privacy == PrivacyPBE {
        return false;
      }
      if !about.WantPrivate() && msg.privacy == PrivacyPrivReply {
        return false;
      }
      if about.WantRecentOnly() {
        var when := msg.importDate;
        if WrapLong(when + env.periodNew) < env.now {
          return false;
        }
      }
      return true;
    }

    /**
     * resolveDependencies: visits every entry of the dependency map once, in
     * the map's own order (returned as `order`).
     */
    method ResolveDependencies(env: PushEnv, rv: seq<Handle>, deps: map<Handle, Handle>)
      returns (out: seq<Handle>, ghost order: seq<Handle>)
      ensures IsOrderOf(order, deps)
      ensures out == Resolve(Contents(), env, rv, deps, order)
    {
      out, order := rv, [];
      var remaining := deps.Keys;
      while remaining != {}
        invariant forall q :: 0 <= q < |order| ==> order[q] in deps && order[q] !in remaining
        invariant forall h :: h in deps ==> h in remaining || h in order
        invariant remaining <= deps.Keys
        invariant forall a, b :: 0 <= a < b < |order| ==> order[a] != order[b]
        invariant out == Resolve(Contents(), env, rv, deps, order)
        decreases |remaining|
      {
        var msgURI :| msgURI in remaining;
        var chanURI := deps[msgURI];
        assert (order + [msgURI])[..|order|] == order;
        order := order + [msgURI];
        remaining := remaining - {msgURI};
        if chanURI in out {
          continue;
        }
        var remChan := GetChannel(chanURI.scope);
        if remChan.None? {
          continue;
        }
        if about.WantKnownChannelsOnly() {
          out := RemoveFirst(out, msgURI);
          continue;
        }
        if env.archiveHasMeta(chanURI.scope) {
          out := out + [chanURI];
        } else {
          out := RemoveFirst(out, msgURI);
        }
      }
    }

    /**
     * selectURIsToPush: scheduleNew over the outbound directories (local new
     * only) or the archive directories, then resolveDependencies.
     */
    method SelectURIsToPush(st: PushStrategy, env: PushEnv, outbound: seq<LocalChannel>, archive: seq<LocalChannel>)
      returns (rv: seq<Handle>, ghost order: seq<Handle>)
      requires ScopesIndexed(Contents())
      ensures IsOrderOf(order, Push.ScheduleNew(Contents(), st, env, PushInventory(st, outbound, archive)).deps)
      ensures rv == Push.SelectURIsToPush(Contents(), st, env, outbound, archive, order)
    {
      var scheduled: seq<Handle>;
      var dependencies: map<Handle, Handle>;
      if st.sendLocalNewOnly {
        scheduled, dependencies := ScheduleNew(st, env, outbound);
      } else {
        scheduled, dependencies := ScheduleNew(st, env, archive);
      }
      rv, order := ResolveDependencies(env, scheduled, dependencies);
    }
  }

  // ------------------------------------------------------------- helpers

  /** The channel loop of read: n channel descriptors, one after the other. */
  method ReadChannels(n: nat, s: seq<byte>) returns (r: Decoded<seq<ChannelRec>>)
    ensures r == DecodeChannels(n, s)
  {
    var chans: seq<ChannelRec> := [];
    var rest := s;
    if DecodeChannels(n, s).Success? {
      assert [] + DecodeChannels(n, s).value.0 == DecodeChannels(n, s).value.0;
    }
    for i := 0 to n
      invariant DecodeChannels(n, s) == Gathered(chans, DecodeChannels(n - i, rest))
    {
      var c := DecodeChannel(rest);
      if c.Failure? {
        return Failure(c.error);
      }
      GatheredTwice(chans, [c.value.0], DecodeChannels(n - i - 1, c.value.1));
      chans := chans + [c.value.0];
      rest := c.value.1;
    }
    AppendEmpty(chans);
    r := Success((chans, rest));
  }

  /** The message loop of read: n message descriptors, one after the other. */
  method ReadMessages(n: nat, s: seq<byte>) returns (r: Decoded<seq<MessageRec>>)
    ensures r == DecodeMessages(n, s)
  {
    var msgs: seq<MessageRec> := [];
    var rest := s;
    if DecodeMessages(n, s).Success? {
      assert [] + DecodeMessages(n, s).value.0 == DecodeMessages(n, s).value.0;
    }
    for i := 0 to n
      invariant DecodeMessages(n, s) == Gathered(msgs, DecodeMessages(n - i, rest))
    {
      var m := DecodeMessage(rest);
      if m.Failure? {
        return Failure(m.error);
      }
      GatheredTwice(msgs, [m.value.0], DecodeMessages(n - i - 1, m.value.1));
      msgs := msgs + [m.value.0];
      rest := m.value.1;
    }
    AppendEmpty(msgs);
    r := Success((msgs, rest));
  }

  /** The records already read, put before what the rest decodes to; a failure of the rest is the result. */
  function Gathered<T>(done: seq<T>, rest: Decoded<seq<T>>): (r: Decoded<seq<T>>)
    ensures r.Success? <==> rest.Success?
    ensures r.Failure? ==> r == rest
    ensures r.Success? ==> r.value.0 == done + rest.value.0 && r.value.1 == rest.value.1
  {
    if rest.Failure? then rest else Success((done + rest.value.0, rest.value.1))
  }

  lemma GatheredTwice<T>(done: seq<T>, more: seq<T>, rest: Decoded<seq<T>>)
    ensures Gathered(done, Gathered(more, rest)) == Gathered(done + more, rest)
  {
    if rest.Success? {
      Assoc(done, more, rest.value.0);
    }
  }

  /** One step of the channel list encoder: the i-th channel, then the rest. */
  lemma EncodeChannelsStep(cs: seq<ChannelRec>, i: nat)
    requires i < |cs|
    ensures EncodeChannels(cs[i..]) ==
      if EncodeChannel(cs[i]).Failure? then Failure(EncodeChannel(cs[i]).error)
      else Then(EncodeChannel(cs[i]).value, EncodeChannels(cs[i + 1..]))
  {
    assert cs[i..][0] == cs[i];
    assert cs[i..][1..] == cs[i + 1..];
  }

  /** One step of the message list encoder: the i-th message, then the rest. */
  lemma EncodeMessagesStep(ms: seq<MessageRec>, i: nat)
    requires i < |ms|
    ensures EncodeMessages(ms[i..]) ==
      if EncodeMessage(ms[i]).Failure? then Failure(EncodeMessage(ms[i]).error)
      else Then(EncodeMessage(ms[i]).value, EncodeMessages(ms[i + 1..]))
  {
    assert ms[i..][0] == ms[i];
    assert ms[i..][1..] == ms[i + 1..];
  }

  /** Running one more step. */
  lemma RunSnoc(cap: int32, steps: seq<Step>, x: Step)
    ensures Run(cap, steps + [x]) == Apply(cap, Run(cap, steps), x, |steps|)
  {
    assert (steps + [x])[..|steps|] == steps;
  }
}
