/**
 * The state `DiscordScraperApp` keeps about DMs, and the operations that change
 * it: `dm_channels` (the records, as tuples), the cache file `dm_channels.txt`,
 * and the entries of the DM list widget. The file is `None` while it does not
 * exist; the channel list and the per-channel fetch a refresh reads are
 * parameters, and the refresh thread runs to completion inside the call.
 */
module Scraper {
  import opened Wrappers
  import opened Text
  import opened Timestamp
  import opened CacheFile
  import opened ListItem
  import opened Refresh

  /** The tuple `(username, timestamp, channel_id)` of a record. */
  function RecordRow(r: DmRecord): (row: Row)
    ensures |row| == 3
  {
    [r.username, r.timestamp, r.channelId]
  }

  function Rows(records: seq<DmRecord>): (rows: seq<Row>)
    ensures |rows| == |records|
    ensures forall i :: 0 <= i < |rows| ==> rows[i] == RecordRow(records[i])
  {
    seq(|records|, i requires 0 <= i < |records| => RecordRow(records[i]))
  }

  /**
   * The entries `load_dm_slot` adds as `load_dm_signal.emit(*item)` runs over
   * `rows`: one label per row up to the first row that is not a triple, where
   * the emit raises a TypeError and the loop stops.
   */
  function Labels(rows: seq<Row>): (labels: seq<string>)
    ensures |labels| <= |rows|
    ensures forall i :: 0 <= i < |labels| ==>
      |rows[i]| == 3 && labels[i] == Label(rows[i][0], rows[i][1], rows[i][2])
    ensures |labels| < |rows| ==> |rows[|labels|]| != 3
    ensures |labels| == |rows| <==> AllTriples(rows)
    decreases |rows|
  {
    if rows == [] || |rows[0]| != 3 then []
    else [Label(rows[0][0], rows[0][1], rows[0][2])] + Labels(rows[1..])
  }

  /** Every row is a triple, so emitting them all raises nothing. */
  predicate AllTriples(rows: seq<Row>) {
    forall i :: 0 <= i < |rows| ==> |rows[i]| == 3
  }

  /**
   * What `dm_channels` becomes when the refresh thread finishes: the collected
   * records, latest first. `None` when the channel list was not a list or a
   * channel raised, so the thread ended before its assignment.
   */
  function RefreshRows(listing: Option<seq<Channel>>, fetch: Fetch): (rows: Option<seq<Row>>)
    ensures rows.Some? <==> listing.Some? && Collect(listing.value, fetch).Some?
    ensures rows.Some? ==> AllTriples(rows.value) && |rows.value| == |Collect(listing.value, fetch).value|
  {
    if listing.None? then None
    else match Collect(listing.value, fetch)
      case None => None
      case Some(records) =>
        var sorted := SortNewestFirst(records);
        assert |sorted| == |multiset(sorted)| == |multiset(records)| == |records|;
        Some(Rows(sorted))
  }

  /** How `load_dms_thread` ended. */
  datatype RefreshOutcome =
    | NotAList   // the channel-list request gave no list: nothing happens
    | Raised     // a channel raised an exception: the thread dies before its assignment
    | Refreshed  // the records were stored, saved and emitted

  /** How `load_dms` ended. */
  datatype LoadOutcome =
    | Shown                              // the file was read and every row listed
    | BadRow                             // the file was read; a row that is not a triple stopped the listing
    | Declined                           // no file, and the user declined to download
    | Downloaded(refresh: RefreshOutcome) // no file, and the refresh thread ran

  class DiscordScraperApp {
    /** `self.dm_channels` */
    var dmChannels: seq<Row>
    /** The content of `dm_channels.txt`, `None` while it does not exist. */
    var cacheFile: Option<string>
    /** The texts of the entries of `dm_list_widget`, in order. */
    var dmList: seq<string>

    /** `__init__`: no records and an empty list; the file is whatever is on disk. */
    constructor(existing: Option<string>)
      ensures dmChannels == [] && dmList == [] && cacheFile == existing
    {
      dmChannels := [];
      cacheFile := existing;
      dmList := [];
    }

    /** `save_dm_channels_to_file`: the file is replaced by the rows, one line each. */
    method SaveDmChannelsToFile()
      modifies this
      ensures cacheFile == Some(Save(dmChannels))
      ensures dmChannels == old(dmChannels) && dmList == old(dmList)
    {
      cacheFile := Some(Save(dmChannels));
    }

    /** `closeEvent`: the rows are saved on the way out. */
    method CloseEvent()
      modifies this
      ensures cacheFile == Some(Save(dmChannels))
      ensures dmChannels == old(dmChannels) && dmList == old(dmList)
    {
      SaveDmChannelsToFile();
    }

    /**
     * `load_dm_channels_from_file`: the rows become the lines of the file; with
     * no file, `open` raises FileNotFoundError and nothing changes.
     */
    method LoadDmChannelsFromFile() returns (found: bool)
      modifies this
      ensures found <==> old(cacheFile).Some?
      ensures found ==> dmChannels == Load(old(cacheFile).value)
      ensures !found ==> dmChannels == old(dmChannels)
      ensures cacheFile == old(cacheFile) && dmList == old(dmList)
    {
      match cacheFile
      case None =>
        found := false;
      case Some(content) =>
        dmChannels := Load(content);
        found := true;
    }

    /**
     * `load_dm_channels`: one entry per row, appended to the list; the first
     * row that is not a triple raises and ends the loop (`complete` is false).
     */
    method LoadDmChannels() returns (complete: bool)
      modifies this
      ensures complete <==> AllTriples(dmChannels)
      ensures dmList == old(dmList) + Labels(dmChannels)
      ensures dmChannels == old(dmChannels) && cacheFile == old(cacheFile)
    {
      var labels := Labels(dmChannels);
      var i := 0;
      while i < |dmChannels|
        invariant 0 <= i <= |dmChannels| && i <= |labels|
        invariant forall k :: 0 <= k < i ==> |dmChannels[k]| == 3
        invariant dmList == old(dmList) + labels[..i]
        invariant dmChannels == old(dmChannels) && cacheFile == old(cacheFile)
      {
        var item := dmChannels[i];
        if |item| != 3 {
          assert |labels| == i;
          assert labels[..i] == labels;
          return false;
        }
        dmList := dmList + [Label(item[0], item[1], item[2])];
        assert labels[..i + 1] == labels[..i] + [labels[i]];
        i := i + 1;
      }
      assert labels[..i] == labels;
      return true;
    }

    /**
     * `load_dms_thread`, run to its end: over the channel list, keep a record
     * for each DM with a last message; then store the records latest first,
     * save them and list them. An exception in a channel ends the thread before
     * anything is stored.
     */
    method LoadDmsThread(listing: Option<seq<Channel>>, fetch: Fetch) returns (outcome: RefreshOutcome)
      modifies this
      ensures outcome == NotAList <==> listing.None?
      ensures outcome == Refreshed <==> RefreshRows(listing, fetch).Some?
      ensures outcome == Refreshed ==>
        && dmChannels == RefreshRows(listing, fetch).value
        && cacheFile == Some(Save(dmChannels))
        && dmList == old(dmList) + Labels(dmChannels)
      ensures outcome != Refreshed ==>
        dmChannels == old(dmChannels) && cacheFile == old(cacheFile) && dmList == old(dmList)
    {
      if listing.None? {
        return NotAList;
      }
      var channels := listing.value;
      var found: seq<DmRecord> := [];
      var i := 0;
      while i < |channels|
        invariant 0 <= i <= |channels|
        invariant Collect(channels[..i], fetch) == Some(found)
        invariant dmChannels == old(dmChannels) && cacheFile == old(cacheFile) && dmList == old(dmList)
      {
        CollectNext(channels, i, fetch);
        match ChannelStep(channels[i], fetch) {
          case Abort =>
            CollectPrefixRaised(channels, i + 1, fetch);
            return Raised;
          case Skip =>
          case Keep(record) =>
            found := found + [record];
        }
        i := i + 1;
      }
      assert channels[..i] == channels;
      dmChannels := Rows(SortNewestFirst(found));
      SaveDmChannelsToFile();
      var complete := LoadDmChannels();
      return Refreshed;
    }

    /** `refresh_dms`: the records and the list are cleared, then the refresh thread runs. */
    method RefreshDms(listing: Option<seq<Channel>>, fetch: Fetch) returns (outcome: RefreshOutcome)
      modifies this
      ensures outcome == Refreshed <==> RefreshRows(listing, fetch).Some?
      ensures outcome == Refreshed ==>
        && dmChannels == RefreshRows(listing, fetch).value
        && cacheFile == Some(Save(dmChannels))
        && dmList == Labels(dmChannels)
      ensures outcome != Refreshed ==> dmChannels == [] && cacheFile == old(cacheFile) && dmList == []
    {
      dmChannels := [];
      dmList := [];
      outcome := LoadDmsThread(listing, fetch);
    }

    /**
     * `load_dms`: read the file and list its rows after the entries already
     * shown; with no file, ask, and on yes clear everything and run the refresh
     * thread. `redownload` is the user's answer.
     */
    method LoadDms(redownload: bool, listing: Option<seq<Channel>>, fetch: Fetch) returns (outcome: LoadOutcome)
      modifies this
      ensures old(cacheFile).Some? ==>
        && (outcome == Shown || outcome == BadRow)
        && (outcome == Shown <==> AllTriples(dmChannels))
        && dmChannels == Load(old(cacheFile).value)
        && dmList == old(dmList) + Labels(dmChannels)
        && cacheFile == old(cacheFile)
      ensures old(cacheFile).None? && !redownload ==>
        outcome == Declined && dmChannels == old(dmChannels) && cacheFile == None && dmList == old(dmList)
      ensures old(cacheFile).None? && redownload ==>
        && outcome.Downloaded?
        && (outcome.refresh == Refreshed <==> RefreshRows(listing, fetch).Some?)
        && (outcome.refresh == Refreshed ==>
              && dmChannels == RefreshRows(listing, fetch).value
              && cacheFile == Some(Save(dmChannels))
              && dmList == Labels(dmChannels))
        && (outcome.refresh != Refreshed ==> dmChannels == [] && cacheFile == None && dmList == [])
    {
      var found := LoadDmChannelsFromFile();
      if found {
        var complete := LoadDmChannels();
        outcome := if complete then Shown else BadRow;
      } else if redownload {
        var refresh := RefreshDms(listing, fetch);
        outcome := Downloaded(refresh);
      } else {
        outcome := Declined;
      }
    }
  }

  /** A record whose name and channel id fit a cache field, and whose timestamp is formatted, is storable. */
  lemma RecordStorable(r: DmRecord, t: DateTime)
    requires CleanField(r.username) && CleanField(r.channelId) && r.timestamp == Format(t)
    ensures Storable(RecordRow(r))
  {
    FormatIsPlain(t);
    TrimmedFieldsStorable(RecordRow(r));
  }

  /**
   * The rows a refresh stores are its collected records reordered: the same
   * records, latest timestamp first, and records of equal timestamp in the
   * order their channels were listed.
   */
  lemma RefreshSortsRecords(listing: Option<seq<Channel>>, fetch: Fetch)
    requires RefreshRows(listing, fetch).Some?
    ensures exists s :: RefreshRows(listing, fetch).value == Rows(s) && Reordered(s, Collect(listing.value, fetch).value)
  {
    var records := Collect(listing.value, fetch).value;
    var s := SortNewestFirst(records);
    SortIsNewestFirst(records);
    forall t {
      SortIsStable(records, t);
    }
    assert Reordered(s, records);
  }

  /** `s` is `records` sorted latest first, stably: what `sorted(..., reverse=True)` returns. */
  ghost predicate Reordered(s: seq<DmRecord>, records: seq<DmRecord>) {
    && multiset(s) == multiset(records)
    && NewestFirst(s)
    && forall t :: WithTimestamp(s, t) == WithTimestamp(records, t)
  }

  /**
   * After a refresh, reading the cache file back gives the rows the refresh
   * stored, provided no name or channel id carries what the format cannot.
   */
  lemma RefreshReloads(listing: Option<seq<Channel>>, fetch: Fetch)
    requires RefreshRows(listing, fetch).Some?
    requires forall r :: r in Collect(listing.value, fetch).value ==> CleanField(r.username) && CleanField(r.channelId)
    ensures Load(Save(RefreshRows(listing, fetch).value)) == RefreshRows(listing, fetch).value
  {
    var records := Collect(listing.value, fetch).value;
    var sorted := SortNewestFirst(records);
    var rows := Rows(sorted);
    forall i | 0 <= i < |rows|
      ensures Storable(rows[i])
    {
      assert sorted[i] in multiset(sorted);
      var r := sorted[i];
      assert r in records;
      RecordTimestamps(listing.value, fetch, r);
      var t: DateTime :| r.timestamp == Format(t);
      RecordStorable(r, t);
    }
    LoadSave(rows);
  }

  /**
   * After a refresh each list entry names its record's channel: clicking entry
   * `i` asks for the messages of the `i`-th channel, whatever the channel-id
   * field holds, for ids free of ')' and " (".
   */
  lemma EntriesNameChannels(records: seq<DmRecord>, i: nat, typed: string)
    requires i < |records| && ')' !in records[i].channelId && !Contains(records[i].channelId, Opening)
    ensures |Labels(Rows(records))| == |records|
    ensures SelectedChannel(Some(Labels(Rows(records))[i]), typed) == records[i].channelId
  {
    SelectedEntry(records[i].username, records[i].timestamp, records[i].channelId, typed);
  }
}
