/**
 * The DM list entries: `load_dm_slot` shows each record as
 * `'{username} ({timestamp}) ({channel_id})'`, and `show_dm_messages` recovers
 * the channel id from a clicked entry with `split(' (')[-1].replace(')', '')`.
 */
module ListItem {
  import opened Wrappers
  import opened Text

  /** The separator `show_dm_messages` splits an entry on. */
  const Opening := " ("

  /** The text `load_dm_slot` gives the entry of one record. */
  function Label(username: string, timestamp: string, channelId: string): (entry: string)
    ensures |entry| == |username| + |timestamp| + |channelId| + 6
    ensures entry[..|username|] == username && entry[|entry| - 1] == ')'
  {
    username + " (" + timestamp + ") (" + channelId + ")"
  }

  /** The last piece of a split. */
  function LastPiece(s: string, sep: string): string
    requires sep != []
  {
    var pieces := Split(s, sep);
    pieces[|pieces| - 1]
  }

  /** `text.split(' (')[-1].replace(')', '')`: whatever follows the last " (", without any ')'. */
  function ExtractId(text: string): (id: string)
    ensures ')' !in id
    ensures |id| <= |LastPiece(text, Opening)|
  {
    Remove(LastPiece(text, Opening), ')')
  }

  /**
   * The channel `show_dm_messages` asks for: the id in the clicked entry, or,
   * with no entry, the stripped text of the channel-id field.
   */
  function SelectedChannel(item: Option<string>, typed: string): (id: string)
    ensures item.Some? ==> ')' !in id
    ensures item.None? ==> Trimmed(id)
  {
    match item
    case Some(text) => ExtractId(text)
    case None => Strip(typed)
  }

  /** With no entry clicked, a padded id typed into the field is asked for without its padding. */
  lemma SelectedTyped(a: string, id: string, b: string)
    requires AllSpace(a) && AllSpace(b) && Trimmed(id)
    ensures SelectedChannel(None, a + id + b) == id
  {
    StripPadding(a, id, b);
  }

  /** A clicked entry wins over whatever the field holds: the entry's id is asked for. */
  lemma SelectedEntry(username: string, timestamp: string, channelId: string, typed: string)
    requires ')' !in channelId && !Contains(channelId, Opening)
    ensures SelectedChannel(Some(Label(username, timestamp, channelId)), typed) == channelId
  {
    ExtractLabel(username, timestamp, channelId);
  }

  lemma {:induction false} SplitWhole(s: string, sep: string)
    requires sep != [] && !Contains(s, sep)
    ensures Split(s, sep) == [s]
    decreases |s|
  {
    if |s| >= |sep| {
      assert !OccursAt(s, sep, 0);
      if Contains(s[1..], sep) {
        var i :| 0 <= i <= |s[1..]| - |sep| && OccursAt(s[1..], sep, i);
        assert s[1..][i..i + |sep|] == s[i + 1..i + 1 + |sep|];
        assert OccursAt(s, sep, i + 1);
      }
      SplitWhole(s[1..], sep);
      assert [s[0]] + s[1..] == s;
    }
  }

  /** A text that starts with the separator: its last piece is that of the rest. */
  lemma LastPieceAtSep(s: string, sep: string)
    requires sep != [] && |s| >= |sep| && s[..|sep|] == sep
    ensures |Split(s, sep)| == 1 + |Split(s[|sep|..], sep)|
    ensures LastPiece(s, sep) == LastPiece(s[|sep|..], sep)
  {
    var rest := Split(s[|sep|..], sep);
    assert Split(s, sep) == [""] + rest;
    assert ([""] + rest)[|rest|] == rest[|rest| - 1];
  }

  lemma SplitLater(s: string, sep: string)
    requires sep != [] && |s| >= |sep| && s[..|sep|] != sep
    ensures Split(s, sep) == [[s[0]] + Split(s[1..], sep)[0]] + Split(s[1..], sep)[1..]
  {
  }

  /** A text that does not start with the separator, and whose tail is cut: the same last piece. */
  lemma LastPieceLater(s: string, sep: string)
    requires sep != [] && |s| >= |sep| && s[..|sep|] != sep && |Split(s[1..], sep)| > 1
    ensures |Split(s, sep)| == |Split(s[1..], sep)|
    ensures LastPiece(s, sep) == LastPiece(s[1..], sep)
  {
    var rest := Split(s[1..], sep);
    SplitLater(s, sep);
    LastOfCons([s[0]] + rest[0], rest);
  }

  lemma LastOfCons<T>(x: T, rest: seq<T>)
    requires |rest| > 1
    ensures |[x] + rest[1..]| == |rest|
    ensures ([x] + rest[1..])[|rest| - 1] == rest[|rest| - 1]
  {
  }

  /** A text that does not start with the separator, and whose tail is whole: it is its own last piece. */
  lemma LastPieceWhole(s: string, sep: string)
    requires sep != [] && |s| >= |sep| && s[..|sep|] != sep && |Split(s[1..], sep)| == 1
    ensures LastPiece(s, sep) == s
  {
    var rest := Split(s[1..], sep);
    JoinSplit(s[1..], sep);
    assert rest == [s[1..]];
    assert Split(s, sep) == [[s[0]] + s[1..]];
    assert [s[0]] + s[1..] == s;
  }

  /** A text that does not start with " (" still does not once " (" and more follow it. */
  lemma NoOpeningStart(s: string, q: string)
    requires s != [] && !(|s| >= 2 && s[..2] == Opening)
    ensures (s + Opening + q)[..2] != Opening
  {
    var t := s + Opening + q;
    assert t[..2][1] == t[1];
    if |s| == 1 {
      assert t[1] == ' ';
    } else {
      assert t[..2] == s[..2];
    }
  }

  /** After a last " (", the rest of the text is the last piece of the split. */
  lemma {:induction false} LastPieceAfter(s: string, q: string)
    requires !Contains(q, Opening)
    ensures |Split(s + Opening + q, Opening)| >= 2
    ensures LastPiece(s + Opening + q, Opening) == q
    decreases |s|
  {
    var t := s + Opening + q;
    if s == [] {
      assert t[..2] == Opening && t[2..] == q;
      SplitWhole(q, Opening);
      LastPieceAtSep(t, Opening);
    } else if |s| >= 2 && s[..2] == Opening {
      assert t[..2] == s[..2];
      assert t[2..] == s[2..] + Opening + q;
      LastPieceAfter(s[2..], q);
      LastPieceAtSep(t, Opening);
    } else {
      NoOpeningStart(s, q);
      assert t[1..] == s[1..] + Opening + q;
      LastPieceAfter(s[1..], q);
      LastPieceLater(t, Opening);
    }
  }

  /** The last piece of a split is a suffix of the text. */
  lemma {:induction false} LastPieceSuffix(s: string, sep: string)
    requires sep != []
    ensures |LastPiece(s, sep)| <= |s| && LastPiece(s, sep) == s[|s| - |LastPiece(s, sep)|..]
    decreases |s|
  {
    if |s| >= |sep| {
      var last := LastPiece(s, sep);
      if s[..|sep|] == sep {
        LastPieceAtSep(s, sep);
        LastPieceSuffix(s[|sep|..], sep);
        SuffixOfSuffix(s, |sep|, |last|);
      } else if |Split(s[1..], sep)| > 1 {
        LastPieceLater(s, sep);
        LastPieceSuffix(s[1..], sep);
        SuffixOfSuffix(s, 1, |last|);
      } else {
        LastPieceWhole(s, sep);
      }
    }
  }

  lemma SuffixOfSuffix(s: string, n: nat, m: nat)
    requires n <= |s| && m <= |s| - n
    ensures s[n..][|s| - n - m..] == s[|s| - m..]
  {
  }

  /** The last piece of a split holds no separator. */
  lemma {:induction false} LastPieceFree(s: string, sep: string)
    requires sep != []
    ensures !Contains(LastPiece(s, sep), sep)
    decreases |s|
  {
    if |s| >= |sep| {
      if s[..|sep|] == sep {
        LastPieceAtSep(s, sep);
        LastPieceFree(s[|sep|..], sep);
      } else if |Split(s[1..], sep)| > 1 {
        LastPieceLater(s, sep);
        LastPieceFree(s[1..], sep);
      } else {
        LastPieceWhole(s, sep);
        LastPieceFree(s[1..], sep);
        NoLaterOccurrence(s, sep);
      }
    }
  }

  /** A text whose tail holds no separator, and which does not start with one, holds none. */
  lemma NoLaterOccurrence(s: string, sep: string)
    requires sep != [] && |s| >= |sep| && s[..|sep|] != sep && !Contains(s[1..], sep)
    ensures !Contains(s, sep)
  {
    forall i | 0 <= i <= |s| - |sep|
      ensures !OccursAt(s, sep, i)
    {
      if i > 0 {
        assert s[1..][i - 1..i - 1 + |sep|] == s[i..i + |sep|];
        assert !OccursAt(s[1..], sep, i - 1);
      }
    }
  }

  lemma RemoveShorter(s: string, c: char)
    requires c in s
    ensures |Remove(s, c)| < |s|
    decreases |s|
  {
    if s[0] != c {
      RemoveShorter(s[1..], c);
    }
  }

  lemma RemoveLast(s: string, c: char)
    requires c !in s
    ensures Remove(s + [c], c) == s
  {
    RemoveAppend(s, [c], c);
    RemoveAbsent(s, c);
    RemoveOne(c, c);
    assert s + [] == s;
  }

  /** The id a label was built from has no " (" unless its label is ended by ")". */
  lemma TailFree(channelId: string)
    requires !Contains(channelId, Opening)
    ensures !Contains(channelId + ")", Opening)
  {
    var tail := channelId + ")";
    forall i | 0 <= i <= |tail| - 2
      ensures !OccursAt(tail, Opening, i)
    {
      if i + 2 <= |channelId| {
        assert channelId[i..i + 2] == tail[i..i + 2];
        assert !OccursAt(channelId, Opening, i);
      } else {
        assert tail[i..i + 2][1] == tail[i + 1] == ')';
        assert Opening[1] == '(';
      }
    }
  }

  /** Label round trip: an id without ')' or " (" is extracted unchanged from its entry. */
  lemma ExtractLabel(username: string, timestamp: string, channelId: string)
    requires ')' !in channelId && !Contains(channelId, Opening)
    ensures ExtractId(Label(username, timestamp, channelId)) == channelId
  {
    var head := username + " (" + timestamp + ")";
    assert Label(username, timestamp, channelId) == head + Opening + (channelId + ")");
    TailFree(channelId);
    LastPieceAfter(head, channelId + ")");
    RemoveLast(channelId, ')');
  }

  /** An id holding " (" is not the id extracted from its entry: a shorter one is. */
  lemma ExtractLabelCut(username: string, timestamp: string, channelId: string)
    requires Contains(channelId, Opening)
    ensures |ExtractId(Label(username, timestamp, channelId))| < |channelId|
  {
    var text := Label(username, timestamp, channelId);
    var head := username + " (" + timestamp + ")";
    assert text == head + Opening + (channelId + ")");
    var i :| 0 <= i <= |channelId| - 2 && OccursAt(channelId, Opening, i);
    var last := LastPiece(text, Opening);
    LastPieceSuffix(text, Opening);
    LastPieceFree(text, Opening);
    var at := |head| + 2 + i;
    assert text[at..at + 2] == channelId[i..i + 2];
    SuffixAvoids(text, last, at);
    assert |last| <= |channelId| - i;
    if last != [] {
      assert last[|last| - 1] == text[|text| - 1] == ')';
      RemoveShorter(last, ')');
    }
  }

  /** A suffix free of " (" starts after every " (" of the text. */
  lemma SuffixAvoids(text: string, last: string, at: nat)
    requires |last| <= |text| && last == text[|text| - |last|..] && !Contains(last, Opening)
    requires at + 2 <= |text| && text[at..at + 2] == Opening
    ensures |text| - |last| > at
  {
    var from := |text| - |last|;
    if from <= at {
      assert last[at - from..at - from + 2] == text[at..at + 2];
      assert OccursAt(last, Opening, at - from);
    }
  }

  /** The label round trip holds exactly for ids with no ')' and no " (". */
  lemma ExtractLabelExact(username: string, timestamp: string, channelId: string)
    ensures ExtractId(Label(username, timestamp, channelId)) == channelId
        <==> ')' !in channelId && !Contains(channelId, Opening)
  {
    if ')' !in channelId && !Contains(channelId, Opening) {
      ExtractLabel(username, timestamp, channelId);
    }
    if Contains(channelId, Opening) {
      ExtractLabelCut(username, timestamp, channelId);
    }
  }
}
