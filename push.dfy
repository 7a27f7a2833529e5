/**
 * What a client sends to a shared archive (selectURIsToPush): scheduleNew
 * walks the client's own channels and messages and lists those the archive
 * lacks and accepts, recording for each message the channel it depends on;
 * resolveDependencies then makes sure every such channel the archive lists
 * is sent too, or drops the message.
 *
 * The client's directories and database are an inventory value: one entry
 * per channel directory in listing order, each with its messages in listing
 * order, with what the database says about them. The clock and the
 * "recent" period are parameters.
 */
module Push {
  import opened Wrappers
  import opened Wire
  import opened Descriptors
  import opened Codec
  import opened Index

  /** A message's privacy as the client's database records it. */
  datatype Privacy = PrivacyPBE | PrivacyPrivReply | PrivacyOther

  /**
   * A message file of a channel directory: the id its name carries (negative
   * when the name does not parse), its length in bytes, and what the
   * database says about it (privacy, the local ids of its author and target
   * channels, each negative when unknown, and when it was imported).
   */
  datatype LocalMessage = LocalMessage(
    messageId: int64, length: int64, privacy: Privacy, authorId: int64, targetId: int64, importDate: int64)

  /**
   * A channel directory: its scope, the channel version and local id the
   * database holds, whether its metadata file is there, and its messages.
   */
  datatype LocalChannel = LocalChannel(
    scope: seq<byte>, version: int64, channelId: int64, hasMeta: bool, messages: seq<LocalMessage>)

  /** The settings of a push; the hashcash settings are never read by the selection. */
  datatype PushStrategy = PushStrategy(maxKBPerMessage: int32, maxKBTotal: int32, sendLocalNewOnly: bool)

  /** A new strategy: messages up to 512KB, no total cap, everything that differs. */
  const DEFAULT_PUSH_STRATEGY := PushStrategy(DEFAULT_MAX_SIZE_KB, 0, false)

  /**
   * The rest of the client: the clock, how long a message counts as recent,
   * the scope of a channel by its local id, and whether the client's archive
   * directory holds a channel's metadata.
   */
  datatype PushEnv = PushEnv(
    now: int64, periodNew: int64, channelHash: int64 -> seq<byte>, archiveHasMeta: seq<byte> -> bool)

  // -------------------------------------------------------------- decisions

  /** The archive wants known channels only and does not list this one: skip the directory. */
  predicate KnownOnlySkips(m: Manifest, c: LocalChannel) {
    m.about.WantKnownChannelsOnly() && ChannelWithScope(m, c.scope).None?
  }

  /** The archive lacks the channel's metadata, or holds an older version of it. */
  predicate SendMeta(m: Manifest, c: LocalChannel) {
    var r := ChannelWithScope(m, c.scope);
    r.None? || r.value.version < c.version
  }

  /** The directory's messages are considered: not skipped, and no metadata is due that the client lacks. */
  predicate Proceeds(m: Manifest, c: LocalChannel) {
    !KnownOnlySkips(m, c) && !(SendMeta(m, c) && !c.hasMeta)
  }

  /**
   * The filters of scheduleNew other than the total cap, in the source's
   * order: a parsed id, unknown to the archive, within the archive's and the
   * strategy's size limits, of a privacy the archive wants, and recent
   * enough when the archive wants recent messages only (Java long
   * arithmetic).
   */
  predicate Eligible(m: Manifest, st: PushStrategy, env: PushEnv, c: LocalChannel, msg: LocalMessage) {
    var kb := KBRoundedUp(msg.length);
    msg.messageId >= 0
    && !Known(m, c.scope, msg.messageId)
    && !(kb > m.about.MaxMessageSize())
    && !(st.maxKBPerMessage > 0 && kb > st.maxKBPerMessage)
    && !(!m.about.WantPBE() && msg.privacy == PrivacyPBE)
    && !(!m.about.WantPrivate() && msg.privacy == PrivacyPrivReply)
    && !(m.about.WantRecentOnly() && WrapLong(msg.importDate + env.periodNew) < env.now)
  }

  /** The channel a sent message depends on: its target when that is another known channel, else its author. */
  function Dependency(env: PushEnv, c: LocalChannel, msg: LocalMessage): (r: Option<Handle>)
    ensures r.Some? ==> r.value.ScopeHandle?
  {
    if msg.targetId >= 0 && c.channelId != msg.targetId then Some(ScopeHandle(env.channelHash(msg.targetId)))
    else if msg.authorId >= 0 && c.channelId != msg.authorId then Some(ScopeHandle(env.channelHash(msg.authorId)))
    else None
  }

  // ------------------------------------------------------------------ steps

  /**
   * What scheduleNew does, one item at a time: announce a channel's
   * metadata, or consider message `index` of channel `channel`, with its
   * URI, its size in KB, whether it passes the filters and its dependency.
   */
  datatype Step =
    | Announce(scope: seq<byte>)
    | Consider(channel: nat, index: nat, uri: Handle, kb: int, eligible: bool, dep: Option<Handle>)

  function ConsiderAt(m: Manifest, st: PushStrategy, env: PushEnv, inv: seq<LocalChannel>, i: nat, j: nat): Step
    requires i < |inv| && j < |inv[i].messages|
  {
    var c := inv[i];
    var msg := c.messages[j];
    Consider(i, j, MessageHandle(c.scope, msg.messageId), KBRoundedUp(msg.length),
      Eligible(m, st, env, c, msg), Dependency(env, c, msg))
  }

  function MessageSteps(m: Manifest, st: PushStrategy, env: PushEnv, inv: seq<LocalChannel>, i: nat): (ss: seq<Step>)
    requires i < |inv|
    ensures |ss| == |inv[i].messages|
    ensures forall j :: 0 <= j < |ss| ==> ss[j] == ConsiderAt(m, st, env, inv, i, j)
  {
    seq(|inv[i].messages|, j requires 0 <= j < |inv[i].messages| => ConsiderAt(m, st, env, inv, i, j))
  }

  /** The steps of channel directory i: nothing when it is skipped, else its announcement if due, then its messages. */
  function ChannelSteps(m: Manifest, st: PushStrategy, env: PushEnv, inv: seq<LocalChannel>, i: nat): seq<Step>
    requires i < |inv|
  {
    if !Proceeds(m, inv[i]) then []
    else (if SendMeta(m, inv[i]) then [Announce(inv[i].scope)] else []) + MessageSteps(m, st, env, inv, i)
  }

  /** The steps of every channel directory, directory by directory. */
  function Plans(m: Manifest, st: PushStrategy, env: PushEnv, inv: seq<LocalChannel>): (css: seq<seq<Step>>)
    ensures |css| == |inv|
    ensures forall i :: 0 <= i < |inv| ==> css[i] == ChannelSteps(m, st, env, inv, i)
  {
    seq(|inv|, i requires 0 <= i < |inv| => ChannelSteps(m, st, env, inv, i))
  }

  /** The blocks of steps, one after another. */
  function Flatten(css: seq<seq<Step>>): seq<Step> {
    if css == [] then [] else Flatten(css[..|css| - 1]) + css[|css| - 1]
  }

  /** All steps of scheduleNew, in order. */
  function Steps(m: Manifest, st: PushStrategy, env: PushEnv, inv: seq<LocalChannel>): seq<Step> {
    Flatten(Plans(m, st, env, inv))
  }

  // -------------------------------------------------------------- the state

  /**
   * The list being built, the message-to-channel dependencies, the running
   * total of KB, and for each entry of the list the step that added it.
   */
  datatype PushState = PushState(rv: seq<Handle>, deps: map<Handle, Handle>, totalKB: int, origin: seq<nat>)

  const EMPTY_PUSH := PushState([], map[], 0, [])

  /** A message step is taken when it passes the filters and, with a total cap, fits under it. */
  predicate Takes(cap: int32, totalKB: int, x: Step) {
    x.Consider? && x.eligible && !(cap > 0 && x.kb + totalKB > cap)
  }

  /** Step k of scheduleNew. */
  function Apply(cap: int32, s: PushState, x: Step, k: nat): PushState {
    match x
    case Announce(scope) => s.(rv := s.rv + [ScopeHandle(scope)], origin := s.origin + [k])
    case Consider(_, _, uri, kb, _, dep) =>
      if Takes(cap, s.totalKB, x) then
        PushState(s.rv + [uri], if dep.Some? then s.deps[uri := dep.value] else s.deps, s.totalKB + kb, s.origin + [k])
      else s
  }

  /** The state after a sequence of steps. */
  function Run(cap: int32, steps: seq<Step>): PushState {
    if steps == [] then EMPTY_PUSH
    else Apply(cap, Run(cap, steps[..|steps| - 1]), steps[|steps| - 1], |steps| - 1)
  }

  /** scheduleNew over an inventory: the list, the dependencies and the total. */
  function ScheduleNew(m: Manifest, st: PushStrategy, env: PushEnv, inv: seq<LocalChannel>): PushState {
    Run(st.maxKBTotal, Steps(m, st, env, inv))
  }

  // --------------------------------------------------------- the steps' origin

  /** Step k is item off of block i. */
  lemma {:induction false} FlattenOrigin(css: seq<seq<Step>>, k: nat) returns (i: nat, off: nat)
    requires k < |Flatten(css)|
    ensures i < |css| && off < |css[i]| && Flatten(css)[k] == css[i][off]
  {
    if css == [] {
      assert false;
    }
    var init := css[..|css| - 1];
    if k < |Flatten(init)| {
      i, off := FlattenOrigin(init, k);
      assert init[i] == css[i];
    } else {
      i, off := |css| - 1, k - |Flatten(init)|;
    }
  }

  /** Item off of block i is some step k. */
  lemma {:induction false} FlattenIndex(css: seq<seq<Step>>, i: nat, off: nat) returns (k: nat)
    requires i < |css| && off < |css[i]|
    ensures k < |Flatten(css)| && Flatten(css)[k] == css[i][off]
  {
    var init := css[..|css| - 1];
    if i == |css| - 1 {
      k := |Flatten(init)| + off;
    } else {
      assert init[i] == css[i];
      k := FlattenIndex(init, i, off);
    }
  }

  /** Of two steps, the later one is in a later block, or later in the same block. */
  lemma {:induction false} FlattenApart(css: seq<seq<Step>>, k1: nat, k2: nat) returns (i1: nat, off1: nat, i2: nat, off2: nat)
    requires k1 < k2 < |Flatten(css)|
    ensures i1 <= i2 < |css| && (i1 == i2 ==> off1 < off2)
    ensures off1 < |css[i1]| && Flatten(css)[k1] == css[i1][off1]
    ensures off2 < |css[i2]| && Flatten(css)[k2] == css[i2][off2]
  {
    if css == [] {
      assert false;
    }
    var init := css[..|css| - 1];
    var n := |Flatten(init)|;
    if k2 < n {
      i1, off1, i2, off2 := FlattenApart(init, k1, k2);
      assert init[i1] == css[i1] && init[i2] == css[i2];
    } else if k1 < n {
      i1, off1 := FlattenOrigin(init, k1);
      assert init[i1] == css[i1];
      i2, off2 := |css| - 1, k2 - n;
    } else {
      i1, off1, i2, off2 := |css| - 1, k1 - n, |css| - 1, k2 - n;
    }
  }

  /**
   * Item off of a directory's steps: the directory proceeds; an
   * announcement comes first, only when the metadata is due and the
   * directory has it, and names the directory's scope; every other item is
   * the consideration of one of its messages.
   */
  lemma ChannelStepFacts(m: Manifest, st: PushStrategy, env: PushEnv, inv: seq<LocalChannel>, i: nat, off: nat)
    requires i < |inv| && off < |ChannelSteps(m, st, env, inv, i)|
    ensures Proceeds(m, inv[i])
    ensures var x := ChannelSteps(m, st, env, inv, i)[off];
      && (x.Announce? ==> off == 0 && x.scope == inv[i].scope && SendMeta(m, inv[i]) && inv[i].hasMeta)
      && (x.Consider? ==>
            var j := off - (if SendMeta(m, inv[i]) then 1 else 0);
            0 <= j < |inv[i].messages| && x == ConsiderAt(m, st, env, inv, i, j))
  {
    var d := if SendMeta(m, inv[i]) then 1 else 0;
    if off >= d {
      assert ChannelSteps(m, st, env, inv, i)[off] == ConsiderAt(m, st, env, inv, i, off - d);
    }
  }

  /** Step k is item off of channel directory i. */
  lemma StepOrigin(m: Manifest, st: PushStrategy, env: PushEnv, inv: seq<LocalChannel>, k: nat)
    returns (i: nat, off: nat)
    requires k < |Steps(m, st, env, inv)|
    ensures i < |inv| && off < |ChannelSteps(m, st, env, inv, i)|
    ensures Steps(m, st, env, inv)[k] == ChannelSteps(m, st, env, inv, i)[off]
  {
    i, off := FlattenOrigin(Plans(m, st, env, inv), k);
  }

  // ------------------------------------------------------------- one step

  /**
   * A step appends at most one entry to the list, recording where it came
   * from; an announcement appends its scope; a taken message appends its
   * URI, adds its size and records its dependency; nothing else changes.
   */
  lemma ApplyFacts(cap: int32, s: PushState, x: Step, k: nat)
    ensures var t := Apply(cap, s, x, k);
      && t.rv[..|s.rv|] == s.rv && t.origin[..|s.origin|] == s.origin
      && (x.Announce? ==> t == s.(rv := s.rv + [ScopeHandle(x.scope)], origin := s.origin + [k]))
      && (Takes(cap, s.totalKB, x) ==>
            t == PushState(s.rv + [x.uri], if x.dep.Some? then s.deps[x.uri := x.dep.value] else s.deps,
              s.totalKB + x.kb, s.origin + [k]))
      && (!x.Announce? && !Takes(cap, s.totalKB, x) ==> t == s)
  {
    match x
    case Announce(scope) =>
      assert (s.rv + [ScopeHandle(scope)])[..|s.rv|] == s.rv;
      assert (s.origin + [k])[..|s.origin|] == s.origin;
    case Consider(_, _, uri, _, _, _) =>
      if Takes(cap, s.totalKB, x) {
        assert (s.rv + [uri])[..|s.rv|] == s.rv;
        assert (s.origin + [k])[..|s.origin|] == s.origin;
      }
  }

  lemma {:induction false} RunLengths(cap: int32, steps: seq<Step>)
    ensures |Run(cap, steps).origin| == |Run(cap, steps).rv| <= |steps|
    ensures forall p :: 0 <= p < |Run(cap, steps).origin| ==> Run(cap, steps).origin[p] < |steps|
  {
    if steps != [] {
      var init := steps[..|steps| - 1];
      RunLengths(cap, init);
      ApplyFacts(cap, Run(cap, init), steps[|steps| - 1], |steps| - 1);
    }
  }

  // ------------------------------------------------------ the run, over steps

  /**
   * Entry p of the list was added by step origin[p]: the scope of an
   * announcement, or the URI of a message step that passed the filters.
   */
  lemma {:induction false} RunOrigin(cap: int32, steps: seq<Step>, p: nat)
    requires p < |Run(cap, steps).rv|
    ensures p < |Run(cap, steps).origin| && Run(cap, steps).origin[p] < |steps|
    ensures var x := steps[Run(cap, steps).origin[p]];
      (x.Announce? && Run(cap, steps).rv[p] == ScopeHandle(x.scope))
      || (x.Consider? && x.eligible && Run(cap, steps).rv[p] == x.uri)
  {
    if steps == [] {
      assert false;
    }
    var init := steps[..|steps| - 1];
    var x := steps[|steps| - 1];
    var s := Run(cap, init);
    var t := Apply(cap, s, x, |steps| - 1);
    assert Run(cap, steps) == t;
    ApplyFacts(cap, s, x, |steps| - 1);
    RunLengths(cap, init);
    if p < |s.rv| {
      RunOrigin(cap, init, p);
      assert t.rv[p] == s.rv[p] && t.origin[p] == s.origin[p];
      assert steps[s.origin[p]] == init[s.origin[p]];
    } else {
      assert x.Announce? || Takes(cap, s.totalKB, x);
      assert t.origin[p] == |steps| - 1;
    }
  }

  /** The list is in step order: a later entry was added by a later step. */
  lemma {:induction false} RunOriginIncreasing(cap: int32, steps: seq<Step>, p: nat, q: nat)
    requires p < q < |Run(cap, steps).rv|
    ensures q < |Run(cap, steps).origin| && Run(cap, steps).origin[p] < Run(cap, steps).origin[q]
  {
    if steps == [] {
      assert false;
    }
    var init := steps[..|steps| - 1];
    var s := Run(cap, init);
    var t := Apply(cap, s, steps[|steps| - 1], |steps| - 1);
    assert Run(cap, steps) == t;
    ApplyFacts(cap, s, steps[|steps| - 1], |steps| - 1);
    RunLengths(cap, init);
    assert t.origin[p] == s.origin[p];
    if q < |s.rv| {
      RunOriginIncreasing(cap, init, p, q);
      assert t.origin[q] == s.origin[q];
    }
  }

  /** Every recorded dependency is of an entry of the list, and was recorded by a taken message step. */
  lemma {:induction false} RunDeps(cap: int32, steps: seq<Step>, h: Handle)
    returns (k: nat)
    requires h in Run(cap, steps).deps
    ensures h in Run(cap, steps).rv
    ensures k < |steps| && steps[k].Consider? && steps[k].uri == h && steps[k].dep == Some(Run(cap, steps).deps[h])
  {
    if steps == [] {
      assert false;
    }
    var init := steps[..|steps| - 1];
    var s := Run(cap, init);
    var x := steps[|steps| - 1];
    var t := Apply(cap, s, x, |steps| - 1);
    assert Run(cap, steps) == t;
    ApplyFacts(cap, s, x, |steps| - 1);
    if Takes(cap, s.totalKB, x) && x.uri == h && x.dep.Some? {
      k := |steps| - 1;
    } else {
      k := RunDeps(cap, init, h);
      assert steps[k] == init[k];
    }
  }

  /** The KB that the message entries of the list claim. */
  function SentKB(steps: seq<Step>, origin: seq<nat>): int {
    if origin == [] then 0
    else
      var k := origin[|origin| - 1];
      SentKB(steps, origin[..|origin| - 1]) + (if k < |steps| && steps[k].Consider? then steps[k].kb else 0)
  }

  lemma {:induction false} RunSize(cap: int32, steps: seq<Step>)
    requires cap > 0
    ensures Run(cap, steps).totalKB == SentKB(steps, Run(cap, steps).origin) <= cap
  {
    if steps != [] {
      var init := steps[..|steps| - 1];
      var x := steps[|steps| - 1];
      assert steps == init + [x];
      var s := Run(cap, init);
      RunSize(cap, init);
      RunLengths(cap, init);
      SentKBExtends(init, x, s.origin);
      assert Run(cap, steps) == Apply(cap, s, x, |steps| - 1);
      ApplySize(cap, steps, s);
    }
  }

  /** The last step keeps the total equal to what the list claims, and under the cap. */
  lemma ApplySize(cap: int32, steps: seq<Step>, s: PushState)
    requires cap > 0 && steps != []
    requires s.totalKB == SentKB(steps, s.origin) <= cap
    ensures var t := Apply(cap, s, steps[|steps| - 1], |steps| - 1);
      t.totalKB == SentKB(steps, t.origin) <= cap
  {
    var x := steps[|steps| - 1];
    var t := Apply(cap, s, x, |steps| - 1);
    ApplyFacts(cap, s, x, |steps| - 1);
    if x.Announce? || Takes(cap, s.totalKB, x) {
      assert t.origin[..|t.origin| - 1] == s.origin;
      assert t.origin[|t.origin| - 1] == |steps| - 1;
    }
  }

  /** Adding a step does not change what earlier steps claim. */
  lemma {:induction false} SentKBExtends(init: seq<Step>, x: Step, origin: seq<nat>)
    requires forall p :: 0 <= p < |origin| ==> origin[p] < |init|
    ensures SentKB(init + [x], origin) == SentKB(init, origin)
  {
    if origin != [] {
      SentKBExtends(init, x, origin[..|origin| - 1]);
      assert (init + [x])[origin[|origin| - 1]] == init[origin[|origin| - 1]];
    }
  }

  /**
   * What a step adds stays in the list: an announcement's scope always, and
   * an eligible message's URI when there is no total cap.
   */
  lemma {:induction false} RunKeepsStep(cap: int32, steps: seq<Step>, k: nat)
    requires k < |steps|
    ensures steps[k].Announce? ==> ScopeHandle(steps[k].scope) in Run(cap, steps).rv
    ensures steps[k].Consider? && steps[k].eligible && cap <= 0 ==> steps[k].uri in Run(cap, steps).rv
  {
    var init := steps[..|steps| - 1];
    var x := steps[|steps| - 1];
    var s := Run(cap, init);
    ApplyFacts(cap, s, x, |steps| - 1);
    var t := Run(cap, steps);
    if k < |steps| - 1 {
      RunKeepsStep(cap, init, k);
      assert init[k] == steps[k];
      assert forall h :: h in s.rv ==> h in t.rv[..|s.rv|];
    }
  }

  // ------------------------------------------------------------ scheduleNew

  /**
   * Every message scheduleNew lists is message j of some channel directory i
   * that proceeds, and passes the filters: it has a parsed id, the archive
   * does not know it, it fits the archive's and the strategy's size
   * limits, its privacy is wanted and, where asked, it is recent.
   */
  lemma PushMessageEligible(m: Manifest, st: PushStrategy, env: PushEnv, inv: seq<LocalChannel>, p: nat)
    returns (i: nat, j: nat)
    requires p < |ScheduleNew(m, st, env, inv).rv| && ScheduleNew(m, st, env, inv).rv[p].MessageHandle?
    ensures i < |inv| && j < |inv[i].messages| && Proceeds(m, inv[i])
    ensures ScheduleNew(m, st, env, inv).rv[p] == MessageHandle(inv[i].scope, inv[i].messages[j].messageId)
    ensures Eligible(m, st, env, inv[i], inv[i].messages[j])
  {
    var steps := Steps(m, st, env, inv);
    RunOrigin(st.maxKBTotal, steps, p);
    var off;
    i, off := StepOrigin(m, st, env, inv, Run(st.maxKBTotal, steps).origin[p]);
    ChannelStepFacts(m, st, env, inv, i, off);
    j := off - (if SendMeta(m, inv[i]) then 1 else 0);
  }

  /**
   * Every scope scheduleNew lists is that of a channel directory i that
   * proceeds, whose metadata the archive lacks or holds in an older
   * version, and which has its metadata file.
   */
  lemma PushScopeAnnounced(m: Manifest, st: PushStrategy, env: PushEnv, inv: seq<LocalChannel>, p: nat)
    returns (i: nat)
    requires p < |ScheduleNew(m, st, env, inv).rv| && ScheduleNew(m, st, env, inv).rv[p].ScopeHandle?
    ensures i < |inv| && Proceeds(m, inv[i]) && SendMeta(m, inv[i]) && inv[i].hasMeta
    ensures ScheduleNew(m, st, env, inv).rv[p] == ScopeHandle(inv[i].scope)
  {
    var steps := Steps(m, st, env, inv);
    RunOrigin(st.maxKBTotal, steps, p);
    var off;
    i, off := StepOrigin(m, st, env, inv, Run(st.maxKBTotal, steps).origin[p]);
    ChannelStepFacts(m, st, env, inv, i, off);
  }

  /**
   * Without a total cap the filters decide exactly: every eligible message
   * of a directory that proceeds is listed.
   */
  lemma PushEligibleListed(m: Manifest, st: PushStrategy, env: PushEnv, inv: seq<LocalChannel>, i: nat, j: nat)
    requires st.maxKBTotal <= 0 && i < |inv| && j < |inv[i].messages| && Proceeds(m, inv[i])
    requires Eligible(m, st, env, inv[i], inv[i].messages[j])
    ensures MessageHandle(inv[i].scope, inv[i].messages[j].messageId) in ScheduleNew(m, st, env, inv).rv
  {
    var off := j + (if SendMeta(m, inv[i]) then 1 else 0);
    assert ChannelSteps(m, st, env, inv, i)[off] == ConsiderAt(m, st, env, inv, i, j);
    var k := FlattenIndex(Plans(m, st, env, inv), i, off);
    RunKeepsStep(st.maxKBTotal, Steps(m, st, env, inv), k);
  }

  /**
   * Every directory that proceeds and whose metadata the archive lacks or
   * holds in an older version has its scope listed, whatever the cap.
   */
  lemma PushDueScopeListed(m: Manifest, st: PushStrategy, env: PushEnv, inv: seq<LocalChannel>, i: nat)
    requires i < |inv| && Proceeds(m, inv[i]) && SendMeta(m, inv[i])
    ensures ScopeHandle(inv[i].scope) in ScheduleNew(m, st, env, inv).rv
  {
    assert ChannelSteps(m, st, env, inv, i)[0] == Announce(inv[i].scope);
    var k := FlattenIndex(Plans(m, st, env, inv), i, 0);
    RunKeepsStep(st.maxKBTotal, Steps(m, st, env, inv), k);
  }

  /**
   * With a total cap, the running total is the sum of the listed messages'
   * sizes and never exceeds the cap.
   */
  lemma PushSizeCap(m: Manifest, st: PushStrategy, env: PushEnv, inv: seq<LocalChannel>)
    requires st.maxKBTotal > 0
    ensures var r := ScheduleNew(m, st, env, inv);
      r.totalKB == SentKB(Steps(m, st, env, inv), r.origin) <= st.maxKBTotal
  {
    RunSize(st.maxKBTotal, Steps(m, st, env, inv));
  }

  /** A message's size as it is counted is its length in KB, rounded up. */
  lemma PushSizeIsKB(m: Manifest, st: PushStrategy, env: PushEnv, inv: seq<LocalChannel>, k: nat)
    returns (i: nat, j: nat)
    requires k < |Steps(m, st, env, inv)| && Steps(m, st, env, inv)[k].Consider?
    ensures i < |inv| && j < |inv[i].messages|
    ensures Steps(m, st, env, inv)[k].kb == KBRoundedUp(inv[i].messages[j].length)
  {
    var off;
    i, off := StepOrigin(m, st, env, inv, k);
    ChannelStepFacts(m, st, env, inv, i, off);
    j := off - (if SendMeta(m, inv[i]) then 1 else 0);
  }

  /**
   * Every recorded dependency maps a listed message of channel directory i
   * to the scope URI of the channel it depends on.
   */
  lemma PushDependency(m: Manifest, st: PushStrategy, env: PushEnv, inv: seq<LocalChannel>, h: Handle)
    returns (i: nat, j: nat)
    requires h in ScheduleNew(m, st, env, inv).deps
    ensures h in ScheduleNew(m, st, env, inv).rv
    ensures i < |inv| && j < |inv[i].messages|
    ensures h == MessageHandle(inv[i].scope, inv[i].messages[j].messageId)
    ensures Dependency(env, inv[i], inv[i].messages[j]) == Some(ScheduleNew(m, st, env, inv).deps[h])
    ensures ScheduleNew(m, st, env, inv).deps[h].ScopeHandle?
  {
    var k := RunDeps(st.maxKBTotal, Steps(m, st, env, inv), h);
    var off;
    i, off := StepOrigin(m, st, env, inv, k);
    ChannelStepFacts(m, st, env, inv, i, off);
    j := off - (if SendMeta(m, inv[i]) then 1 else 0);
  }

  /**
   * Channel directories have distinct scopes, and within a directory the
   * messages whose file names parse have distinct ids (files that do not
   * parse all carry -1 and are never eligible).
   */
  predicate DistinctInventory(inv: seq<LocalChannel>) {
    (forall a, b :: 0 <= a < b < |inv| ==> inv[a].scope != inv[b].scope)
    && (forall i, a, b :: 0 <= i < |inv| && 0 <= a < b < |inv[i].messages| && inv[i].messages[a].messageId >= 0 ==>
          inv[i].messages[a].messageId != inv[i].messages[b].messageId)
  }

  /**
   * When directories have distinct scopes and messages distinct ids,
   * scheduleNew lists nothing twice.
   */
  lemma PushNoRepeats(m: Manifest, st: PushStrategy, env: PushEnv, inv: seq<LocalChannel>, p: nat, q: nat)
    requires DistinctInventory(inv)
    requires p < q < |ScheduleNew(m, st, env, inv).rv|
    ensures ScheduleNew(m, st, env, inv).rv[p] != ScheduleNew(m, st, env, inv).rv[q]
  {
    var cap := st.maxKBTotal;
    var steps := Steps(m, st, env, inv);
    var r := Run(cap, steps);
    RunOrigin(cap, steps, p);
    RunOrigin(cap, steps, q);
    RunOriginIncreasing(cap, steps, p, q);
    var i1, off1, i2, off2 := FlattenApart(Plans(m, st, env, inv), r.origin[p], r.origin[q]);
    ChannelStepFacts(m, st, env, inv, i1, off1);
    ChannelStepFacts(m, st, env, inv, i2, off2);
  }

  // -------------------------------------------------- resolveDependencies

  /** `List.remove(Object)`: the first occurrence of h goes, if there is one. */
  function RemoveFirst(s: seq<Handle>, h: Handle): seq<Handle> {
    if s == [] then []
    else if s[0] == h then s[1..]
    else [s[0]] + RemoveFirst(s[1..], h)
  }

  lemma {:induction false} RemoveFirstCount(s: seq<Handle>, h: Handle, y: Handle)
    ensures multiset(RemoveFirst(s, h))[y] == if y == h && h in s then multiset(s)[y] - 1 else multiset(s)[y]
  {
    if s != [] {
      assert s == [s[0]] + s[1..];
      if s[0] != h {
        RemoveFirstCount(s[1..], h, y);
        assert h in s <==> h in s[1..];
      }
    }
  }

  /**
   * One entry of the dependency map: nothing when the channel is listed
   * already or the archive does not list it; otherwise the message goes if
   * the archive wants known channels only or the client's archive lacks the
   * channel's metadata, and the channel's URI is added if it has it.
   */
  function ResolveOne(m: Manifest, env: PushEnv, rv: seq<Handle>, h: Handle, d: Handle): seq<Handle> {
    if d in rv then rv
    else if ChannelWithScope(m, d.scope).None? then rv
    else if m.about.WantKnownChannelsOnly() then RemoveFirst(rv, h)
    else if env.archiveHasMeta(d.scope) then rv + [d]
    else RemoveFirst(rv, h)
  }

  /** resolveDependencies, visiting the map's entries in `order`. */
  function Resolve(m: Manifest, env: PushEnv, rv: seq<Handle>, deps: map<Handle, Handle>, order: seq<Handle>): seq<Handle>
    requires forall q :: 0 <= q < |order| ==> order[q] in deps
  {
    if order == [] then rv
    else
      var k := order[|order| - 1];
      ResolveOne(m, env, Resolve(m, env, rv, deps, order[..|order| - 1]), k, deps[k])
  }

  /** The order of a map's entries: every key once. */
  predicate IsOrderOf(order: seq<Handle>, deps: map<Handle, Handle>) {
    (forall q :: 0 <= q < |order| ==> order[q] in deps)
    && (forall h :: h in deps ==> h in order)
    && (forall a, b :: 0 <= a < b < |order| ==> order[a] != order[b])
  }

  /** Dependencies lead from message URIs to scope URIs. */
  predicate DepsShaped(deps: map<Handle, Handle>) {
    forall h :: h in deps ==> h.MessageHandle? && deps[h].ScopeHandle?
  }

  /**
   * One entry removes at most its own message once, and adds at most its
   * channel, and only when that was absent.
   */
  lemma ResolveOneCount(m: Manifest, env: PushEnv, rv: seq<Handle>, k: Handle, d: Handle, h: Handle)
    requires k.MessageHandle? && d.ScopeHandle?
    ensures var r := ResolveOne(m, env, rv, k, d);
      && (h != k && h != d ==> multiset(r)[h] == multiset(rv)[h])
      && (h == k ==> multiset(r)[h] <= multiset(rv)[h] <= multiset(r)[h] + 1)
      && (h == d ==> (multiset(r)[h] == multiset(rv)[h] || (multiset(rv)[h] == 0 && multiset(r)[h] == 1)))
  {
    RemoveFirstCount(rv, k, h);
  }

  /**
   * resolveDependencies never adds a message URI, and removes one only if
   * it is a key of the map, and then only once.
   */
  lemma {:induction false} ResolveRemoves(m: Manifest, env: PushEnv, rv: seq<Handle>, deps: map<Handle, Handle>,
    order: seq<Handle>, h: Handle)
    requires DepsShaped(deps) && h.MessageHandle?
    requires forall q :: 0 <= q < |order| ==> order[q] in deps
    requires forall a, b :: 0 <= a < b < |order| ==> order[a] != order[b]
    ensures var out := Resolve(m, env, rv, deps, order);
      multiset(out)[h] <= multiset(rv)[h] <= multiset(out)[h] + (if h in order then 1 else 0)
  {
    if order != [] {
      var init := order[..|order| - 1];
      var k := order[|order| - 1];
      assert forall a :: 0 <= a < |init| ==> init[a] == order[a];
      ResolveRemoves(m, env, rv, deps, init, h);
      ResolveOneCount(m, env, Resolve(m, env, rv, deps, init), k, deps[k], h);
      assert h in init ==> h in order;
      assert h == k ==> h !in init;
    }
  }

  /**
   * resolveDependencies never drops a scope URI, and adds one only where it
   * was absent, once, and only as the dependency of some message (q).
   */
  lemma {:induction false} ResolveAdds(m: Manifest, env: PushEnv, rv: seq<Handle>, deps: map<Handle, Handle>,
    order: seq<Handle>, h: Handle)
    returns (q: nat)
    requires DepsShaped(deps) && h.ScopeHandle?
    requires forall q :: 0 <= q < |order| ==> order[q] in deps
    ensures var out := Resolve(m, env, rv, deps, order);
      multiset(out)[h] == multiset(rv)[h]
      || (multiset(rv)[h] == 0 && multiset(out)[h] == 1 && q < |order| && deps[order[q]] == h)
  {
    if order == [] {
      return 0;
    }
    var init := order[..|order| - 1];
    var k := order[|order| - 1];
    var before := Resolve(m, env, rv, deps, init);
    q := ResolveAdds(m, env, rv, deps, init, h);
    ResolveOneCount(m, env, before, k, deps[k], h);
    if multiset(before)[h] == multiset(rv)[h] && h == deps[k] {
      q := |order| - 1;
    }
  }

  /**
   * For each entry whose channel the archive lists, resolveDependencies
   * leaves the channel's URI in the list or the message out of it (provided
   * the message was listed at most once).
   */
  lemma {:induction false} ResolveClosure(m: Manifest, env: PushEnv, rv: seq<Handle>, deps: map<Handle, Handle>,
    order: seq<Handle>, q: nat)
    requires DepsShaped(deps)
    requires forall q :: 0 <= q < |order| ==> order[q] in deps
    requires forall a, b :: 0 <= a < b < |order| ==> order[a] != order[b]
    requires q < |order| && multiset(rv)[order[q]] <= 1 && ChannelWithScope(m, deps[order[q]].scope).Some?
    ensures var out := Resolve(m, env, rv, deps, order); deps[order[q]] in out || order[q] !in out
  {
    var init := order[..|order| - 1];
    var k := order[|order| - 1];
    var before := Resolve(m, env, rv, deps, init);
    assert Resolve(m, env, rv, deps, order) == ResolveOne(m, env, before, k, deps[k]);
    assert forall a :: 0 <= a < |init| ==> init[a] == order[a];
    if q < |order| - 1 {
      assert init[q] == order[q];
      ResolveClosure(m, env, rv, deps, init, q);
      ResolveOneKeeps(m, env, before, k, deps[k], order[q], deps[order[q]]);
    } else {
      ResolveRemoves(m, env, rv, deps, init, k);
      ResolveOneSettles(m, env, before, k, deps[k]);
    }
  }

  /** A later entry keeps a scope URI that is there, and does not bring back another entry's message. */
  lemma ResolveOneKeeps(m: Manifest, env: PushEnv, rv: seq<Handle>, k: Handle, dk: Handle, h: Handle, d: Handle)
    requires k.MessageHandle? && dk.ScopeHandle? && d.ScopeHandle? && h.MessageHandle? && h != k
    ensures var r := ResolveOne(m, env, rv, k, dk); (d in rv ==> d in r) && (h !in rv ==> h !in r)
  {
    var r := ResolveOne(m, env, rv, k, dk);
    RemoveFirstCount(rv, k, d);
    RemoveFirstCount(rv, k, h);
    assert (d in r) == (multiset(r)[d] > 0) && (d in rv) == (multiset(rv)[d] > 0);
    assert (h in r) == (multiset(r)[h] > 0) && (h in rv) == (multiset(rv)[h] > 0);
  }

  /** An entry whose message is listed at most once and whose channel the archive lists is settled. */
  lemma ResolveOneSettles(m: Manifest, env: PushEnv, rv: seq<Handle>, k: Handle, d: Handle)
    requires multiset(rv)[k] <= 1 && ChannelWithScope(m, d.scope).Some?
    ensures var r := ResolveOne(m, env, rv, k, d); d in r || k !in r
  {
    RemoveFirstCount(rv, k, k);
  }

  /**
   * When the archive wants known channels only, resolveDependencies never
   * adds anything: each entry either stays or loses its message.
   */
  lemma {:induction false} KnownOnlyNeverAdds(m: Manifest, env: PushEnv, rv: seq<Handle>, deps: map<Handle, Handle>,
    order: seq<Handle>, h: Handle)
    requires m.about.WantKnownChannelsOnly()
    requires forall q :: 0 <= q < |order| ==> order[q] in deps
    ensures multiset(Resolve(m, env, rv, deps, order))[h] <= multiset(rv)[h]
  {
    if order != [] {
      var init := order[..|order| - 1];
      var k := order[|order| - 1];
      KnownOnlyNeverAdds(m, env, rv, deps, init, h);
      RemoveFirstCount(Resolve(m, env, rv, deps, init), k, h);
    }
  }

  // --------------------------------------------------------- selectURIsToPush

  /** The inventory scheduleNew walks: the outbound directories for local-new-only, else the archive's. */
  function PushInventory(st: PushStrategy, outbound: seq<LocalChannel>, archive: seq<LocalChannel>): seq<LocalChannel> {
    if st.sendLocalNewOnly then outbound else archive
  }

  /** selectURIsToPush, with the dependency map's entries visited in `order`. */
  function SelectURIsToPush(m: Manifest, st: PushStrategy, env: PushEnv, outbound: seq<LocalChannel>,
    archive: seq<LocalChannel>, order: seq<Handle>): seq<Handle>
    requires IsOrderOf(order, ScheduleNew(m, st, env, PushInventory(st, outbound, archive)).deps)
  {
    var s := ScheduleNew(m, st, env, PushInventory(st, outbound, archive));
    Resolve(m, env, s.rv, s.deps, order)
  }

  /** The dependencies scheduleNew records lead from message URIs to scope URIs. */
  lemma PushDepsShaped(m: Manifest, st: PushStrategy, env: PushEnv, inv: seq<LocalChannel>)
    ensures DepsShaped(ScheduleNew(m, st, env, inv).deps)
  {
    forall h | h in ScheduleNew(m, st, env, inv).deps
      ensures h.MessageHandle? && ScheduleNew(m, st, env, inv).deps[h].ScopeHandle?
    {
      var i, j := PushDependency(m, st, env, inv, h);
    }
  }

  /**
   * After selectURIsToPush over an inventory with distinct scopes and ids,
   * every message that depends on a channel the archive lists is either
   * sent together with that channel's URI or not sent at, whatever order
   * the dependencies were visited in.
   */
  lemma PushClosure(m: Manifest, st: PushStrategy, env: PushEnv, outbound: seq<LocalChannel>,
    archive: seq<LocalChannel>, order: seq<Handle>, h: Handle)
    requires DistinctInventory(PushInventory(st, outbound, archive))
    requires IsOrderOf(order, ScheduleNew(m, st, env, PushInventory(st, outbound, archive)).deps)
    requires h in ScheduleNew(m, st, env, PushInventory(st, outbound, archive)).deps
    requires ChannelWithScope(m, ScheduleNew(m, st, env, PushInventory(st, outbound, archive)).deps[h].scope).Some?
    ensures var d := ScheduleNew(m, st, env, PushInventory(st, outbound, archive)).deps[h];
      var out := SelectURIsToPush(m, st, env, outbound, archive, order);
      d in out || h !in out
  {
    var inv := PushInventory(st, outbound, archive);
    var s := ScheduleNew(m, st, env, inv);
    PushDepsShaped(m, st, env, inv);
    var q :| 0 <= q < |order| && order[q] == h;
    NoRepeatsCount(m, st, env, inv, h);
    ResolveClosure(m, env, s.rv, s.deps, order, q);
  }

  /**
   * When the archive wants known channels only, selectURIsToPush fails
   * closed: it sends nothing scheduleNew did not list, and every scope it
   * sends is of a channel the archive lists.
   */
  lemma PushKnownOnly(m: Manifest, st: PushStrategy, env: PushEnv, outbound: seq<LocalChannel>,
    archive: seq<LocalChannel>, order: seq<Handle>, h: Handle)
    requires m.about.WantKnownChannelsOnly()
    requires IsOrderOf(order, ScheduleNew(m, st, env, PushInventory(st, outbound, archive)).deps)
    ensures var out := SelectURIsToPush(m, st, env, outbound, archive, order);
      multiset(out)[h] <= multiset(ScheduleNew(m, st, env, PushInventory(st, outbound, archive)).rv)[h]
    ensures h.ScopeHandle? && h in SelectURIsToPush(m, st, env, outbound, archive, order) ==>
      ChannelWithScope(m, h.scope).Some?
  {
    var inv := PushInventory(st, outbound, archive);
    var s := ScheduleNew(m, st, env, inv);
    KnownOnlyNeverAdds(m, env, s.rv, s.deps, order, h);
    if h.ScopeHandle? && h in SelectURIsToPush(m, st, env, outbound, archive, order) {
      assert multiset(s.rv)[h] > 0;
      var p :| 0 <= p < |s.rv| && s.rv[p] == h;
      var i := PushScopeAnnounced(m, st, env, inv, p);
    }
  }

  /** With nothing listed twice, every entry occurs at most once. */
  lemma NoRepeatsCount(m: Manifest, st: PushStrategy, env: PushEnv, inv: seq<LocalChannel>, h: Handle)
    requires DistinctInventory(inv)
    ensures multiset(ScheduleNew(m, st, env, inv).rv)[h] <= 1
  {
    var rv := ScheduleNew(m, st, env, inv).rv;
    forall p, q | 0 <= p < q < |rv|
      ensures rv[p] != rv[q]
    {
      PushNoRepeats(m, st, env, inv, p, q);
    }
    AtMostOnce(rv, h);
  }

  lemma {:induction false} AtMostOnce(s: seq<Handle>, h: Handle)
    requires forall p, q :: 0 <= p < q < |s| ==> s[p] != s[q]
    ensures multiset(s)[h] <= 1
  {
    if s != [] {
      var init := s[..|s| - 1];
      AtMostOnce(init, h);
      assert s == init + [s[|s| - 1]];
      assert forall a :: 0 <= a < |init| ==> init[a] == s[a];
      assert s[|s| - 1] == h ==> h !in init;
    }
  }

  /**
   * resolveDependencies only adds scope URIs and only removes message URIs
   * that have dependencies, each at most once.
   */
  lemma PushResolveChanges(m: Manifest, env: PushEnv, rv: seq<Handle>, deps: map<Handle, Handle>,
    order: seq<Handle>, h: Handle)
    requires DepsShaped(deps) && IsOrderOf(order, deps)
    ensures var out := Resolve(m, env, rv, deps, order);
      && (multiset(out)[h] > multiset(rv)[h] ==>
            h.ScopeHandle? && multiset(rv)[h] == 0 && multiset(out)[h] == 1 && h in deps.Values)
      && (multiset(out)[h] < multiset(rv)[h] ==> h.MessageHandle? && h in deps && multiset(out)[h] == multiset(rv)[h] - 1)
  {
    if h.ScopeHandle? {
      var q := ResolveAdds(m, env, rv, deps, order, h);
      var out := Resolve(m, env, rv, deps, order);
      if multiset(out)[h] != multiset(rv)[h] {
        assert deps[order[q]] == h;
      }
    } else {
      ResolveRemoves(m, env, rv, deps, order, h);
    }
  }
}
