/**
 * The DM refresh of `load_dms_thread`, as functions of its inputs: the channel
 * list, and the limit-1 message fetch of each channel. Each channel is skipped,
 * kept as one record, or raises an exception that ends the whole refresh; the
 * records are then sorted newest first by their timestamp text.
 */
module Refresh {
  import opened Wrappers
  import opened Text
  import opened Timestamp

  /** The channel `type` of a one-to-one DM (group DMs and guild channels have others). */
  const DirectMessage := 1

  /** An entry of a channel's `recipients`: its `username`, if the JSON has one. */
  datatype Recipient = Recipient(username: Option<string>)

  /** A channel of the channel list: its `type`, `id` and `recipients`, each possibly absent. */
  datatype Channel = Channel(kind: Option<int>, id: Option<string>, recipients: Option<seq<Recipient>>)

  /**
   * A message as the fetch returns it; its `timestamp` after `fromisoformat`,
   * `None` when the field is absent or not ISO 8601 (the parse raises).
   */
  datatype Message = Message(timestamp: Option<DateTime>)

  /** The tuple `(username, timestamp, channel_id)` a refresh builds for one DM. */
  datatype DmRecord = DmRecord(username: string, timestamp: string, channelId: string)

  /**
   * The limit-1 message fetch, by channel id: what `get_data_from_discord`
   * returned, `None` on a failed request or a missing API key.
   */
  type Fetch = string -> Option<seq<Message>>

  /** What one channel contributes: nothing, one record, or an exception. */
  datatype Step = Skip | Keep(record: DmRecord) | Abort

  /**
   * `channel.get('recipients', [{}])[0].get('username', 'Unknown')`:
   * `None` when the list is present but empty (an IndexError).
   */
  function Username(c: Channel): (name: Option<string>)
    ensures name.None? <==> c.recipients == Some([])
  {
    match c.recipients
    case None => Some("Unknown")
    case Some(rs) => if rs == [] then None else Some(rs[0].username.GetOr("Unknown"))
  }

  /** A fetch result Python takes as true: a non-empty list. */
  predicate Truthy(r: Option<seq<Message>>) {
    r.Some? && r.value != []
  }

  /** One iteration of the loop in `load_dms_thread`. */
  function ChannelStep(c: Channel, fetch: Fetch): (s: Step)
    ensures c.kind != Some(DirectMessage) ==> s == Skip
    ensures s.Keep? ==>
      && c.kind == Some(DirectMessage)
      && c.id == Some(s.record.channelId)
      && Username(c) == Some(s.record.username)
      && Truthy(fetch(s.record.channelId))
      && fetch(s.record.channelId).value[0].timestamp.Some?
      && s.record.timestamp == Format(fetch(s.record.channelId).value[0].timestamp.value)
    ensures c.kind == Some(DirectMessage) && Username(c).Some? && c.id.Some? && !Truthy(fetch(c.id.value))
      ==> s == Skip
    ensures
      (&& c.kind == Some(DirectMessage) && Username(c).Some? && c.id.Some?
       && Truthy(fetch(c.id.value)) && fetch(c.id.value).value[0].timestamp.Some?)
      ==> s.Keep?
    ensures s.Abort? <==>
      && c.kind == Some(DirectMessage)
      && (|| Username(c).None?
          || c.id.None?
          || (Truthy(fetch(c.id.value)) && fetch(c.id.value).value[0].timestamp.None?))
  {
    if c.kind != Some(DirectMessage) then Skip
    else match Username(c)
      case None => Abort
      case Some(name) =>
        match c.id
        case None => Abort
        case Some(id) =>
          var last := fetch(id);
          if !Truthy(last) then Skip
          else match last.value[0].timestamp
            case None => Abort
            case Some(t) => Keep(DmRecord(name, Format(t), id))
  }

  /**
   * The list `dm_list` holds after the loop has run over `cs`, or `None`
   * when some channel raised.
   */
  function Collect(cs: seq<Channel>, fetch: Fetch): (found: Option<seq<DmRecord>>)
    ensures found.Some? ==> |found.value| <= |cs|
    decreases |cs|
  {
    if cs == [] then Some([])
    else match Collect(cs[..|cs| - 1], fetch)
      case None => None
      case Some(l) =>
        match ChannelStep(cs[|cs| - 1], fetch)
        case Abort => None
        case Skip => Some(l)
        case Keep(r) => Some(l + [r])
  }

  /** The outcome of two stretches of the loop run one after the other. */
  function Chain(x: Option<seq<DmRecord>>, y: Option<seq<DmRecord>>): Option<seq<DmRecord>> {
    if x.Some? && y.Some? then Some(x.value + y.value) else None
  }

  /** Running the loop over two stretches of channels, one after the other. */
  lemma {:induction false} CollectAppend(a: seq<Channel>, b: seq<Channel>, fetch: Fetch)
    ensures Collect(a + b, fetch) == Chain(Collect(a, fetch), Collect(b, fetch))
    decreases |b|
  {
    if b == [] {
      assert a + b == a;
      if Collect(a, fetch).Some? {
        assert Collect(a, fetch).value + [] == Collect(a, fetch).value;
      }
    } else {
      var b' := b[..|b| - 1];
      assert (a + b)[..|a + b| - 1] == a + b';
      assert (a + b)[|a + b| - 1] == b[|b| - 1];
      CollectAppend(a, b', fetch);
      if Collect(a, fetch).Some? && Collect(b', fetch).Some? {
        var la, lb := Collect(a, fetch).value, Collect(b', fetch).value;
        match ChannelStep(b[|b| - 1], fetch)
        case Keep(r) =>
          assert la + (lb + [r]) == la + lb + [r];
        case Skip =>
        case Abort =>
      }
    }
  }

  /**
   * A channel that contributes nothing can be taken out of the list without
   * changing the outcome: the other channels' records, their order, and
   * whether the refresh completes all stay the same.
   */
  lemma CollectWithout(cs: seq<Channel>, j: nat, fetch: Fetch)
    requires j < |cs| && ChannelStep(cs[j], fetch) == Skip
    ensures Collect(cs, fetch) == Collect(cs[..j] + cs[j + 1..], fetch)
  {
    var p, q := cs[..j], cs[j + 1..];
    Around(cs, j);
    CollectSkipLast(p, cs[j], fetch);
    CollectAppend(p + [cs[j]], q, fetch);
    CollectAppend(p, q, fetch);
  }

  lemma Around<T>(s: seq<T>, j: nat)
    requires j < |s|
    ensures s == (s[..j] + [s[j]]) + s[j + 1..]
  {
  }

  /** One more channel: the prefix of length `i + 1` is the prefix of length `i` and channel `i`. */
  lemma CollectNext(cs: seq<Channel>, i: nat, fetch: Fetch)
    requires i < |cs|
    ensures Collect(cs[..i + 1], fetch) ==
      match Collect(cs[..i], fetch)
      case None => None
      case Some(l) =>
        match ChannelStep(cs[i], fetch)
        case Abort => None
        case Skip => Some(l)
        case Keep(r) => Some(l + [r])
  {
    PrefixStep(cs, i);
  }

  lemma PrefixStep<T>(s: seq<T>, i: nat)
    requires i < |s|
    ensures s[..i + 1][..i] == s[..i] && s[..i + 1][i] == s[i] && |s[..i + 1]| == i + 1
  {
  }

  lemma CollectSkipLast(p: seq<Channel>, c: Channel, fetch: Fetch)
    requires ChannelStep(c, fetch) == Skip
    ensures Collect(p + [c], fetch) == Collect(p, fetch)
  {
    var s := p + [c];
    assert s[..|s| - 1] == p && s[|s| - 1] == c;
  }

  /**
   * A DM whose last-message fetch failed or came back empty is dropped, and
   * only that one: the refresh goes on with the other channels exactly as if
   * it were not in the list.
   */
  lemma FailedFetchIsolated(cs: seq<Channel>, j: nat, fetch: Fetch)
    requires j < |cs| && cs[j].kind == Some(DirectMessage)
    requires Username(cs[j]).Some? && cs[j].id.Some? && !Truthy(fetch(cs[j].id.value))
    ensures Collect(cs, fetch) == Collect(cs[..j] + cs[j + 1..], fetch)
  {
    CollectWithout(cs, j, fetch);
  }

  /** A channel that is not a one-to-one DM is ignored whatever its fetch would return. */
  lemma OtherKindsIgnored(cs: seq<Channel>, j: nat, fetch: Fetch)
    requires j < |cs| && cs[j].kind != Some(DirectMessage)
    ensures Collect(cs, fetch) == Collect(cs[..j] + cs[j + 1..], fetch)
  {
    CollectWithout(cs, j, fetch);
  }

  /**
   * A group DM next to a one-to-one DM with a dated last message: the refresh
   * yields exactly one record, the DM's, named after its first recipient.
   */
  lemma GroupBesideDirect(g: Channel, d: Channel, name: string, id: string, t: DateTime, fetch: Fetch)
    requires g.kind != Some(DirectMessage)
    requires d.kind == Some(DirectMessage) && Username(d) == Some(name) && d.id == Some(id)
    requires Truthy(fetch(id)) && fetch(id).value[0].timestamp == Some(t)
    ensures Collect([g, d], fetch) == Some([DmRecord(name, Format(t), id)])
  {
    assert [g][..0] == [];
    assert Collect([g], fetch) == Some([]);
    assert [g, d][..1] == [g];
    var r := DmRecord(name, Format(t), id);
    assert ChannelStep(d, fetch) == Keep(r);
    assert [] + [r] == [r];
  }

  /** Once the channels so far have raised, the refresh raises whatever follows. */
  lemma CollectPrefixRaised(cs: seq<Channel>, n: nat, fetch: Fetch)
    requires n <= |cs| && Collect(cs[..n], fetch).None?
    ensures Collect(cs, fetch).None?
  {
    assert cs == cs[..n] + cs[n..];
    CollectAppend(cs[..n], cs[n..], fetch);
  }

  /** A channel that raises ends the refresh, wherever it stands in the list. */
  lemma CollectRaised(cs: seq<Channel>, n: nat, fetch: Fetch)
    requires 0 < n <= |cs|
    requires Collect(cs[..n - 1], fetch).Some? && ChannelStep(cs[n - 1], fetch).Abort?
    ensures Collect(cs, fetch).None?
  {
    var prefix := cs[..n];
    assert prefix[..|prefix| - 1] == cs[..n - 1] && prefix[|prefix| - 1] == cs[n - 1];
    assert Collect(prefix, fetch).None?;
    CollectPrefixRaised(cs, n, fetch);
  }

  /** The refresh ends in an exception exactly when one of the channels raises. */
  lemma {:induction false} CollectAborts(cs: seq<Channel>, fetch: Fetch)
    ensures Collect(cs, fetch).None? <==> exists j :: 0 <= j < |cs| && ChannelStep(cs[j], fetch).Abort?
    decreases |cs|
  {
    if cs != [] {
      var init := cs[..|cs| - 1];
      CollectAborts(init, fetch);
      if exists j :: 0 <= j < |init| && ChannelStep(init[j], fetch).Abort? {
        var j :| 0 <= j < |init| && ChannelStep(init[j], fetch).Abort?;
        assert cs[j] == init[j];
      }
      if exists j :: 0 <= j < |cs| && ChannelStep(cs[j], fetch).Abort? {
        var j :| 0 <= j < |cs| && ChannelStep(cs[j], fetch).Abort?;
        if j < |init| {
          assert init[j] == cs[j];
        }
      }
    }
  }

  /** Each record of a completed refresh is the one some channel keeps. */
  lemma {:induction false} CollectFrom(cs: seq<Channel>, fetch: Fetch, r: DmRecord)
    requires Collect(cs, fetch).Some? && r in Collect(cs, fetch).value
    ensures exists j :: 0 <= j < |cs| && ChannelStep(cs[j], fetch) == Keep(r)
    decreases |cs|
  {
    var init := cs[..|cs| - 1];
    var l := Collect(init, fetch).value;
    if r in l {
      CollectFrom(init, fetch, r);
      var j :| 0 <= j < |init| && ChannelStep(init[j], fetch) == Keep(r);
      assert cs[j] == init[j];
    } else {
      assert ChannelStep(cs[|cs| - 1], fetch) == Keep(r);
    }
  }

  /** Each channel's kept record is in the result of a completed refresh. */
  lemma {:induction false} CollectKeeps(cs: seq<Channel>, fetch: Fetch, j: nat)
    requires Collect(cs, fetch).Some? && j < |cs| && ChannelStep(cs[j], fetch).Keep?
    ensures ChannelStep(cs[j], fetch).record in Collect(cs, fetch).value
    decreases |cs|
  {
    var init := cs[..|cs| - 1];
    if j < |init| {
      assert init[j] == cs[j];
      CollectKeeps(init, fetch, j);
    }
  }

  /**
   * The records of a completed refresh are exactly those the channels keep:
   * each record comes from some channel, and each kept channel's record is there.
   */
  lemma CollectMembers(cs: seq<Channel>, fetch: Fetch)
    requires Collect(cs, fetch).Some?
    ensures forall r :: r in Collect(cs, fetch).value <==>
      exists j :: 0 <= j < |cs| && ChannelStep(cs[j], fetch) == Keep(r)
  {
    forall r | r in Collect(cs, fetch).value
      ensures exists j :: 0 <= j < |cs| && ChannelStep(cs[j], fetch) == Keep(r)
    {
      CollectFrom(cs, fetch, r);
    }
    forall j | 0 <= j < |cs| && ChannelStep(cs[j], fetch).Keep?
      ensures ChannelStep(cs[j], fetch).record in Collect(cs, fetch).value
    {
      CollectKeeps(cs, fetch, j);
    }
  }

  /**
   * Only one-to-one DMs produce records: every record of a completed refresh
   * names a channel of type 1 in the list whose fetch returned messages.
   */
  lemma RecordsAreDirectMessages(cs: seq<Channel>, fetch: Fetch, r: DmRecord)
    requires Collect(cs, fetch).Some? && r in Collect(cs, fetch).value
    ensures exists j :: 0 <= j < |cs| && cs[j].kind == Some(DirectMessage) && cs[j].id == Some(r.channelId)
    ensures Truthy(fetch(r.channelId))
  {
    CollectMembers(cs, fetch);
    var j :| 0 <= j < |cs| && ChannelStep(cs[j], fetch) == Keep(r);
  }

  /** Every record of a completed refresh carries a formatted timestamp. */
  lemma RecordTimestamps(cs: seq<Channel>, fetch: Fetch, r: DmRecord)
    requires Collect(cs, fetch).Some? && r in Collect(cs, fetch).value
    ensures exists t: DateTime :: r.timestamp == Format(t)
  {
    CollectMembers(cs, fetch);
    var j :| 0 <= j < |cs| && ChannelStep(cs[j], fetch) == Keep(r);
    var t := fetch(r.channelId).value[0].timestamp.value;
    assert r.timestamp == Format(t);
  }

  // ---------------------------------------------------------------------------
  // sorted(dm_list, key=lambda x: x[1], reverse=True)

  /**
   * Places `x` before the first record whose timestamp is not later than its
   * own: after the later ones, ahead of the earlier ones and of its equals.
   */
  function Insert(x: DmRecord, s: seq<DmRecord>): (r: seq<DmRecord>)
    ensures multiset(r) == multiset(s) + multiset{x}
    decreases |s|
  {
    if s == [] || !Below(x.timestamp, s[0].timestamp) then [x] + s
    else
      assert s == [s[0]] + s[1..];
      [s[0]] + Insert(x, s[1..])
  }

  /**
   * `sorted(dm_list, key=lambda x: x[1], reverse=True)`: a stable sort on the
   * timestamp text, latest first; records with equal timestamps keep the order
   * in which they were found.
   */
  function SortNewestFirst(s: seq<DmRecord>): (r: seq<DmRecord>)
    ensures multiset(r) == multiset(s)
    decreases |s|
  {
    if s == [] then []
    else
      assert s == [s[0]] + s[1..];
      Insert(s[0], SortNewestFirst(s[1..]))
  }

  /** No record's timestamp text sorts below that of a record after it. */
  predicate NewestFirst(s: seq<DmRecord>) {
    forall i, j :: 0 <= i < j < |s| ==> !Below(s[i].timestamp, s[j].timestamp)
  }

  /** The records whose timestamp text is `t`, in their order. */
  function WithTimestamp(s: seq<DmRecord>, t: string): seq<DmRecord>
    decreases |s|
  {
    if s == [] then []
    else (if s[0].timestamp == t then [s[0]] else []) + WithTimestamp(s[1..], t)
  }

  lemma {:induction false} InsertNewestFirst(x: DmRecord, s: seq<DmRecord>)
    requires NewestFirst(s)
    ensures NewestFirst(Insert(x, s))
    decreases |s|
  {
    var r := Insert(x, s);
    if s == [] || !Below(x.timestamp, s[0].timestamp) {
      forall j | 1 <= j < |r|
        ensures !Below(x.timestamp, r[j].timestamp)
      {
        assert r[j] == s[j - 1];
        if j > 1 && Below(x.timestamp, s[j - 1].timestamp) {
          BelowTotal(s[0].timestamp, x.timestamp);
          if Below(s[0].timestamp, x.timestamp) {
            BelowTransitive(s[0].timestamp, x.timestamp, s[j - 1].timestamp);
          }
          assert false;
        }
      }
    } else {
      var tail := Insert(x, s[1..]);
      InsertNewestFirst(x, s[1..]);
      assert multiset(tail) == multiset(s[1..]) + multiset{x};
      forall j | 0 <= j < |tail|
        ensures !Below(s[0].timestamp, tail[j].timestamp)
      {
        assert tail[j] in multiset(tail);
        if tail[j] == x {
          BelowAsymmetric(x.timestamp, s[0].timestamp);
        } else {
          assert tail[j] in multiset(s[1..]);
          var k :| 0 <= k < |s[1..]| && s[1..][k] == tail[j];
          assert s[k + 1] == tail[j];
        }
      }
    }
  }

  /** The sort puts the latest timestamp text first and never a later one after an earlier one. */
  lemma {:induction false} SortIsNewestFirst(s: seq<DmRecord>)
    ensures NewestFirst(SortNewestFirst(s))
    decreases |s|
  {
    if s != [] {
      SortIsNewestFirst(s[1..]);
      InsertNewestFirst(s[0], SortNewestFirst(s[1..]));
    }
  }

  lemma {:induction false} InsertWithTimestamp(x: DmRecord, s: seq<DmRecord>, t: string)
    ensures WithTimestamp(Insert(x, s), t) ==
      (if x.timestamp == t then [x] else []) + WithTimestamp(s, t)
    decreases |s|
  {
    if s == [] || !Below(x.timestamp, s[0].timestamp) {
      assert ([x] + s)[1..] == s;
    } else {
      var tail := Insert(x, s[1..]);
      assert ([s[0]] + tail)[1..] == tail;
      InsertWithTimestamp(x, s[1..], t);
      if x.timestamp == t {
        assert !Below(t, t);
      }
    }
  }

  /**
   * Stability: among records with the same timestamp text, the sort keeps the
   * order they had in its input; the records of each timestamp are exactly
   * those of the input.
   */
  lemma {:induction false} SortIsStable(s: seq<DmRecord>, t: string)
    ensures WithTimestamp(SortNewestFirst(s), t) == WithTimestamp(s, t)
    decreases |s|
  {
    if s != [] {
      SortIsStable(s[1..], t);
      InsertWithTimestamp(s[0], SortNewestFirst(s[1..]), t);
    }
  }

  /**
   * Sorting on the text is sorting on time: of two records in the sorted
   * list, the earlier-placed one's moment is not in an earlier second.
   */
  lemma NewestFirstIsChronological(s: seq<DmRecord>, i: nat, j: nat, a: DateTime, b: DateTime)
    requires NewestFirst(s) && i < j < |s|
    requires s[i].timestamp == Format(a) && s[j].timestamp == Format(b)
    ensures !Earlier(a, b)
  {
    FormatOrder(a, b);
  }

  /** A record inserted ahead of one whose timestamp text is not above its own goes first. */
  lemma InsertFront(x: DmRecord, s: seq<DmRecord>)
    requires s == [] || !Below(x.timestamp, s[0].timestamp)
    ensures Insert(x, s) == [x] + s
  {
  }

  /** A record inserted ahead of a later one goes after it. */
  lemma InsertPast(x: DmRecord, s: seq<DmRecord>)
    requires s != [] && Below(x.timestamp, s[0].timestamp)
    ensures Insert(x, s) == [s[0]] + Insert(x, s[1..])
  {
  }

  lemma SortAscendingTwo(r2: DmRecord, r3: DmRecord)
    requires Below(r2.timestamp, r3.timestamp)
    ensures SortNewestFirst([r2, r3]) == [r3, r2]
  {
    var s3, s23 := [r3], [r2, r3];
    assert s23[0] == r2 && s23[1..] == s3 && s3[0] == r3 && s3[1..] == [];
    InsertFront(r3, []);
    assert SortNewestFirst(s3) == s3;
    InsertPast(r2, s3);
    InsertFront(r2, []);
  }

  lemma InsertLast(x: DmRecord, a: DmRecord, b: DmRecord)
    requires Below(x.timestamp, a.timestamp) && Below(x.timestamp, b.timestamp)
    ensures Insert(x, [a, b]) == [a, b, x]
  {
    var ab := [a, b];
    assert ab[0] == a && ab[1..] == [b] && [b][1..] == [];
    InsertPast(x, ab);
    InsertPast(x, [b]);
    InsertFront(x, []);
  }

  /** Three records whose timestamp texts ascend come out of the sort reversed. */
  lemma SortAscendingThree(r1: DmRecord, r2: DmRecord, r3: DmRecord)
    requires Below(r1.timestamp, r2.timestamp) && Below(r2.timestamp, r3.timestamp)
    ensures SortNewestFirst([r1, r2, r3]) == [r3, r2, r1]
  {
    BelowTransitive(r1.timestamp, r2.timestamp, r3.timestamp);
    var s := [r1, r2, r3];
    assert s[0] == r1 && s[1..] == [r2, r3];
    SortAscendingTwo(r2, r3);
    InsertLast(r1, r3, r2);
  }

  /**
   * Three DMs found in order of their last activity, oldest first, come out
   * of the sort in the reverse order.
   */
  lemma SortThree(r1: DmRecord, r2: DmRecord, r3: DmRecord, a: DateTime, b: DateTime, c: DateTime)
    requires r1.timestamp == Format(a) && r2.timestamp == Format(b) && r3.timestamp == Format(c)
    requires Earlier(a, b) && Earlier(b, c)
    ensures SortNewestFirst([r1, r2, r3]) == [r3, r2, r1]
  {
    FormatOrder(a, b);
    FormatOrder(b, c);
    SortAscendingThree(r1, r2, r3);
  }
}
