# WrapCord DM core in Dafny

WrapCord is a desktop window (`DiscordScraperApp`, in `WrapCord.py`) that
reads a user's Discord data with their API token. Its self-contained logic
covers five areas:

- **DM refresh.** Take the channel list. Keep the one-to-one DMs
  (`type == 1`). Build a `(username, timestamp, channel_id)` record for
  each DM whose last message could be fetched. Sort the records
  newest-first by the formatted timestamp. Store them in `dm_channels`,
  save them to `dm_channels.txt`, and list them.
- **The cache file.** Each line is a record's fields joined by `,`. Reading
  it back uses `strip().split(',')`.
- **The timestamp format.** `%Y-%m-%d %H:%M:%S` is fixed-width, so string
  order is time order.
- **The DM list entry.** Each entry reads `username (timestamp) (id)`.
  Clicking an entry recovers the id from that text.
- **Input guards.** A token of only whitespace sends no request, and
  `show_messages` checks its channel and count fields.

The model is split into these modules:

- `Text` holds the Python `str` operations the code uses:
  - `strip()` with Python's whitespace set
  - `join` and `split`
  - `replace(c, '')` and `isdigit()`
  - iteration over the lines of a file
  - the `<` that `sorted` compares with
- `Timestamp` holds the formatter and its order lemma.
- `CacheFile` holds the line codec.
- `ListItem` holds the list entry and the id extraction.
- `Api` holds `get_headers`, the no-token guard of `get_data_from_discord`
  and the check in `show_messages`. HTTP is a parameter: a function from
  request to response.
- `Refresh` holds the refresh loop, written as functions: one step per
  channel, then the collected list, then the stable sort.
- `Scraper` holds the class `DiscordScraperApp`, with three fields:
  - `dmChannels`: the tuples, as `seq<string>`, because a loaded line can
    have any number of fields
  - `cacheFile`: the file content, `None` while the file does not exist
  - `dmList`: the texts of the list widget

  Its methods change these fields as the Python methods do. The channel list
  is `Option<seq<Channel>>`, where `None` means the reply was not a list. The
  limit-1 message fetch is a function from channel id to
  `Option<seq<Message>>`. Both are parameters.

Behaviour of the code worth knowing, which the model follows:

- **Exceptions abort the whole refresh.** A fetch for one channel that
  returns no data (a blank key or a non-200 status) or an empty list is
  skipped and the batch goes on. But a
  DM channel with an empty `recipients` list (IndexError), without an `id`
  (KeyError), or whose last message has a missing or non-ISO `timestamp`
  (ValueError) raises inside the thread. The thread then ends before
  `dm_channels` is assigned and before the file is written
  (`Refresh.CollectAborts`, `Scraper.DiscordScraperApp.LoadDmsThread`).
- **Loading does not check the file.** The cache file is read without any
  check of the field count. A row that is not a triple fails only when it
  is emitted, in `load_dm_channels`: the entries before it stay listed
  (`Scraper.Labels`).
- **Channel ids are not deduplicated.** Nothing in the code keeps ids
  unique, and the model does not add that.
- **Loading DMs twice duplicates entries.** `load_dms` does not clear the
  list widget before listing the file, so every click on "Load DMs" appends
  the rows again.

## Model

| member | source | states |
|---|---|---|
| Text.Strip | WrapCord.py:60 | `strip()` gives a string with no whitespace at either end, no longer than the input |
| Text.StripPadding | WrapCord.py:60 | stripping whitespace padding around a trimmed text gives exactly that text |
| Text.StripEmpty | WrapCord.py:60-61 | a stripped text is empty exactly when the input is all whitespace |
| Text.Split | WrapCord.py:118 | `split` always returns at least one piece |
| Text.Join | WrapCord.py:122 | `sep.join(parts)`: the joined text begins with the first part |
| Text.JoinSplit | WrapCord.py:118-122 | joining the pieces of a split with the same separator rebuilds the text |
| Text.SplitJoin | WrapCord.py:118-122 | splitting a join on a one-char separator gives back the parts when no part holds that char |
| Text.Remove | WrapCord.py:125 | `replace(c, '')` leaves no `c` and is never longer |
| Text.RemoveAppend | WrapCord.py:125 | removal distributes over concatenation, so the kept characters stay in their order |
| Text.RemoveOne | WrapCord.py:125 | on one character, `c` goes and any other character stays |
| Text.RemoveCounts | WrapCord.py:125 | every character other than `c` is kept exactly as often as it occurs |
| Text.RemoveAbsent | WrapCord.py:125 | a text without `c` is unchanged |
| Text.IsDigits | WrapCord.py:142 | `isdigit()` on ASCII digits: a non-empty run of digits, which has no whitespace at either end |
| Text.Lines | WrapCord.py:118 | `for line in f`: every line is non-empty and every line but the last ends with '\n' |
| Text.LinesJoin | WrapCord.py:118 | the lines put back together are the whole file text |
| Text.LinesFirst | WrapCord.py:118 | file iteration yields a line ended by '\n' and then the lines of the rest |
| Text.Below | WrapCord.py:98 | the `<` that `sorted` uses on timestamp texts: lexicographic by code point, never true of equal texts |
| Text.BelowTransitive | WrapCord.py:98 | string `<` is transitive, which `sorted` relies on |
| Text.BelowTotal | WrapCord.py:98 | string `<` is total on distinct strings |
| Text.BelowAppend | WrapCord.py:98 | for equal-width heads, comparing concatenations compares heads, then tails |
| Timestamp.Format | WrapCord.py:96 | `strftime("%Y-%m-%d %H:%M:%S")` is always 19 characters |
| Timestamp.FormatOrder | WrapCord.py:96-98 | formatted timestamps compare as strings exactly as their moments compare by second, and are equal exactly when in the same second |
| Timestamp.FormatIsPlain | WrapCord.py:96-97 | a formatted timestamp holds no ',', '\n', ')', " (" and no outer whitespace |
| CacheFile.EncodeRow | WrapCord.py:122 | `",".join(item)`: a row whose fields hold no '\n' gives a line without '\n' |
| CacheFile.Save | WrapCord.py:122 | the file text `writelines` produces: empty exactly for no rows, otherwise ending in '\n' |
| CacheFile.DecodeLine | WrapCord.py:118 | a read line gives a non-empty tuple with no ',' in any field |
| CacheFile.Load | WrapCord.py:116-118 | loading gives one tuple per line of the file |
| CacheFile.SaveLines | WrapCord.py:120-122 | saving writes exactly one '\n'-ended line per record, in order |
| CacheFile.RowRoundTrip | WrapCord.py:118-122 | a storable record written as a line reads back unchanged |
| CacheFile.RowRoundTripExact | WrapCord.py:118-122 | for fields without '\n', a line reads back unchanged exactly when the record is storable |
| CacheFile.TrimmedFieldsStorable | WrapCord.py:118-122 | a non-empty tuple of trimmed fields without ',' or '\n' is storable |
| CacheFile.LoadSave | WrapCord.py:116-122 | loading what was saved gives the same records in the same order, when all are storable |
| CacheFile.LoadSaveExact | WrapCord.py:116-122 | for fields without '\n', the file round trip holds exactly when every record is storable |
| CacheFile.CommaSplitsName | WrapCord.py:116-122 | a record whose name is `x,y` is read back with four fields, `x` and `y` apart |
| ListItem.ExtractId | WrapCord.py:125 | the extracted id holds no ')' and is no longer than the text after the last " (" |
| ListItem.Label | WrapCord.py:105 | the entry text `username (timestamp) (channel_id)`: it starts with the name, ends with ')' and adds six characters |
| ListItem.SelectedChannel | WrapCord.py:125 | a clicked entry gives an id without ')'; with no entry, the result has no outer whitespace |
| ListItem.SelectedTyped | WrapCord.py:125 | with no entry clicked, a padded id in the field is asked for without its padding |
| ListItem.SelectedEntry | WrapCord.py:125 | a clicked entry's id is asked for whatever the field holds, for ids without ')' and " (" |
| ListItem.LastPieceAfter | WrapCord.py:125 | after a last " (", the rest of the text is the last piece of the split |
| ListItem.ExtractLabel | WrapCord.py:105-125 | an id without ')' and " (" is extracted unchanged from its entry |
| ListItem.ExtractLabelCut | WrapCord.py:105-125 | an id holding " (" comes back shorter |
| ListItem.ExtractLabelExact | WrapCord.py:105-125 | the entry round trip holds exactly for ids without ')' and " (" |
| Api.GetHeaders | WrapCord.py:59-61 | no headers exactly when the token field is all whitespace; otherwise the only key is `Authorization` and its value is the non-empty stripped token |
| Api.HeaderCarriesToken | WrapCord.py:59-61 | a padded token reaches the header without its padding |
| Api.GetData | WrapCord.py:63-72 | no request is sent exactly when there are no headers; otherwise one GET with those headers is sent, and its body is returned exactly when the status is 200 |
| Api.CheckMessageQuery | WrapCord.py:139-144 | accepted exactly when the stripped channel id is non-empty and the stripped count is a non-empty run of digits |
| Api.MessagesUrl | WrapCord.py:145 | the messages URL ends with the requested count |
| Api.ShowMessages | WrapCord.py:139-145 | rejected input sends nothing; accepted input sends what `get_data_from_discord` sends for the messages URL |
| Api.AcceptsPaddedQuery | WrapCord.py:139-144 | padded fields pass and are used without their padding |
| Api.RejectsNonDigitCount | WrapCord.py:142-144 | a count with any non-digit is rejected and nothing is sent |
| Refresh.Username | WrapCord.py:93 | the name lookup fails exactly when `recipients` is present and empty |
| Refresh.ChannelStep | WrapCord.py:92-97 | non-DMs are skipped; a DM with a name, an id, a non-empty fetch and a dated last message is kept; a kept record carries the channel's id, its name and its last message's formatted time; a DM with a failed or empty fetch is skipped; it raises exactly on empty recipients, a missing id or a missing or bad timestamp |
| Refresh.Collect | WrapCord.py:90-97 | the loop's `dm_list`, or none when a channel raised: at most one record per channel |
| Refresh.CollectAppend | WrapCord.py:91-97 | the loop over two stretches of channels gives their records concatenated, or raises if either does |
| Refresh.CollectWithout | WrapCord.py:91-97 | removing a skipped channel changes nothing |
| Refresh.GroupBesideDirect | WrapCord.py:91-97 | a group DM beside a dated one-to-one DM yields exactly one record, the DM's |
| Refresh.FailedFetchIsolated | WrapCord.py:94-95 | a DM whose fetch returned no data or an empty list is dropped; everything else is unchanged and the batch goes on |
| Refresh.OtherKindsIgnored | WrapCord.py:92 | a channel that is not of type 1 is ignored |
| Refresh.CollectRaised | WrapCord.py:93-96 | a channel that raises ends the refresh wherever it stands |
| Refresh.CollectAborts | WrapCord.py:91-97 | the refresh raises exactly when some channel raises |
| Refresh.CollectMembers | WrapCord.py:91-97 | the collected records are exactly those the channels keep |
| Refresh.RecordsAreDirectMessages | WrapCord.py:92-97 | each record comes from a type-1 channel with that id whose fetch returned messages |
| Refresh.RecordTimestamps | WrapCord.py:96 | each record's timestamp is a formatted moment |
| Refresh.Insert | WrapCord.py:98 | inserting adds exactly the one record |
| Refresh.SortNewestFirst | WrapCord.py:98 | the sort is a permutation of its input |
| Refresh.SortIsNewestFirst | WrapCord.py:98 | no timestamp sorts below one placed after it |
| Refresh.SortIsStable | WrapCord.py:98 | records with equal timestamps keep their discovery order |
| Refresh.NewestFirstIsChronological | WrapCord.py:96-98 | in the sorted list, no record's moment is in an earlier second than a later-placed record's |
| Refresh.SortThree | WrapCord.py:96-98 | three DMs found oldest first come out newest first |
| Scraper.Labels | WrapCord.py:100-114 | one entry per row up to the first row that is not a triple; all rows are listed exactly when all are triples |
| Scraper.RecordRow | WrapCord.py:97 | the tuple `(username, timestamp, channel_id)` a record is stored as: always three fields |
| Scraper.RefreshRows | WrapCord.py:88-98 | the refresh stores rows exactly when the list is a list and no channel raises; they are triples, one per collected record |
| Scraper.RefreshSortsRecords | WrapCord.py:98 | the stored rows are the collected records as a permutation, latest timestamp first, equal timestamps in channel order |
| Scraper.DiscordScraperApp.constructor | WrapCord.py:8-10 | a new window starts with no records and an empty list |
| Scraper.DiscordScraperApp.SaveDmChannelsToFile | WrapCord.py:120-122 | the file is overwritten with the saved rows; nothing else changes |
| Scraper.DiscordScraperApp.CloseEvent | WrapCord.py:154-156 | closing saves the rows |
| Scraper.DiscordScraperApp.LoadDmChannelsFromFile | WrapCord.py:116-118 | with a file, the rows become its loaded lines; without one, nothing changes |
| Scraper.DiscordScraperApp.LoadDmChannels | WrapCord.py:112-114 | appends the entries of the rows up to the first non-triple, and completes exactly when all rows are triples |
| Scraper.DiscordScraperApp.LoadDmsThread | WrapCord.py:87-101 | with no list nothing changes; if a channel raises nothing changes; otherwise the rows become the sorted records, the file is saved and their entries are appended |
| Scraper.DiscordScraperApp.RefreshDms | WrapCord.py:107-110 | clears the records and the list, then refreshes as above |
| Scraper.DiscordScraperApp.LoadDms | WrapCord.py:74-85 | with a file, its rows are loaded and listed after the existing entries; without one, a "no" changes nothing and a "yes" clears and refreshes |
| Scraper.RecordStorable | WrapCord.py:96-122 | a record whose name and id hold no ',' or '\n' and no outer whitespace, with a formatted time, is storable |
| Scraper.RefreshReloads | WrapCord.py:98-122 | after a refresh, reading the file back gives the stored rows, when no name or id holds ',' or '\n' or outer whitespace |
| Scraper.EntriesNameChannels | WrapCord.py:100-125 | after a refresh every record has an entry, and clicking entry `i` asks for the `i`-th channel's messages whatever the field holds, for ids without ')' and " (" |

## Left out

- The PyQt window is not modelled: widgets, layout, buttons, message boxes and the logging
  setup. The answer to the "Re-download?" question is the `redownload` parameter.
- Signals and slots are not modelled. Each `load_dm_signal.emit(*item)` is
  modelled as the entry being appended at once.
- A TypeError from a non-triple row is not propagated further. The model
  stops the loop and reports `BadRow`. It does not model what PyQt does with
  an exception that escapes a slot.
- The HTTP transport of `requests.get`, the `logging.error` on a non-200 status and JSON decoding are not modelled.
  Responses are a parameter. The channel list and the per-channel fetch
  arrive already decoded. A non-list JSON reply is `None`.
- An exception from `requests.get` or `response.json()` (WrapCord.py:68-70)
  is not modelled: the fetch always returns. In the code such an exception
  ends the refresh like the exceptions above.
- JSON values of the wrong type are out of scope, for example a `null`
  username, or `True` as a channel type, which Python compares equal to 1.
- Threads are not modelled. The refresh thread runs to completion inside the
  calling method. Races between concurrent refreshes and a refresh running
  beside "Load DMs" are not modelled.
- `datetime.fromisoformat` is not modelled. A timestamp is either a parsed,
  valid moment or absent/unparseable. A timezone offset is dropped before
  formatting.
- Timestamp.Pad4: writes every year with four digits, as Python documents
  for `%Y`. Some C libraries write years below 1000 with fewer digits; the
  model does not cover that.
- Text.Lines: splits only after '\n'. Text-mode reading's translation of
  '\r' and "\r\n" is not modelled.
- Text.IsDigits: accepts only ASCII digits. Python's `isdigit` also accepts
  other Unicode digits, such as superscripts.
- Real file I/O is not modelled. The file is its content as a string, and
  open errors other than "not found" are out of scope.
- Guild previews, the guild list, message rendering and `display_data` are
  not modelled. The same goes for the server-id guard and the request of
  `show_dm_messages`; only its channel choice is modelled.
