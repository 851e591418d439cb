/** `_process_messages`: what a series of runs over a channel leaves in the message,
    statistic and media tables. */
module MessageStore {
  import opened Options
  import opened Messages

  type Content = seq<bv8>

  datatype Limits = Limits(images: nat, documents: nat)

  datatype StoredMessage = StoredMessage(channel: int, messageId: int, createdAt: int, text: string, html: string,
      media: seq<Content>)

  /** A statistic row refers to its message row, here by position. */
  datatype Statistic = Statistic(message: nat, views: nat)

  datatype Store = Store(rows: seq<StoredMessage>, statistics: seq<Statistic>)

  function OrEmpty(text: Option<string>): string { if text.Some? then text.value else "" }

  /** What is kept of a message's media: the size of a photo is checked after the download,
      that of a document before it. */
  function Kept(media: Media, l: Limits): Option<Content> {
    match media
    case NoMedia => None
    case Photo(content) => if content.Some? && |content.value| <= l.images then content else None
    case Document(size, content) => if size.Some? && size.value <= l.documents then content else None
  }

  function AllMedia(originals: seq<Message>, l: Limits): seq<Content> {
    if originals == [] then []
    else
      var n := |originals| - 1;
      var kept := Kept(originals[n].media, l);
      AllMedia(originals[..n], l) + if kept.Some? then [kept.value] else []
  }

  /** Which media of the messages of a record are stored, in their order: a photo if it was
      downloaded and its content is within the limit for images; a document if its size is known
      and within the limit for documents, whatever the size of the content downloaded. */
  lemma MediaOneMore(originals: seq<Message>, m: Message, l: Limits)
    ensures AllMedia([], l) == []
    ensures m.media.NoMedia? ==> AllMedia(originals + [m], l) == AllMedia(originals, l)
    ensures m.media.Photo? ==>
      AllMedia(originals + [m], l)
      == if m.media.content.Some? && |m.media.content.value| <= l.images
         then AllMedia(originals, l) + [m.media.content.value] else AllMedia(originals, l)
    ensures m.media.Document? ==>
      AllMedia(originals + [m], l)
      == if m.media.size.Some? && m.media.size.value <= l.documents && m.media.content.Some?
         then AllMedia(originals, l) + [m.media.content.value] else AllMedia(originals, l)
  {
    assert (originals + [m])[..|originals|] == originals;
  }

  predicate IsRow(row: StoredMessage, channel: int, id: int) { row.channel == channel && row.messageId == id }

  /** `find_by_channel_id_and_message_id`: a position, or the length when there is no row. */
  function Find(rows: seq<StoredMessage>, channel: int, id: int): (k: nat)
    ensures k <= |rows| && (k < |rows| ==> IsRow(rows[k], channel, id))
    ensures forall i :: 0 <= i < k ==> !IsRow(rows[i], channel, id)
  {
    if rows == [] || IsRow(rows[0], channel, id) then 0 else 1 + Find(rows[1..], channel, id)
  }

  function Put(s: Store, channel: int, p: Parsed, l: Limits): Store {
    var k := Find(s.rows, channel, p.id);
    Store(if k < |s.rows| then s.rows[k := s.rows[k].(text := OrEmpty(p.text), html := OrEmpty(p.html))]
          else s.rows + [StoredMessage(channel, p.id, p.createdAt, OrEmpty(p.text), OrEmpty(p.html),
              AllMedia(p.originals, l))],
          s.statistics + [Statistic(k, p.views)])
  }

  function PutAll(s: Store, channel: int, collected: seq<Parsed>, l: Limits): Store {
    if collected == [] then s
    else
      var n := |collected| - 1;
      Put(PutAll(s, channel, collected[..n], l), channel, collected[n], l)
  }

  class MessageTables {
    var channels: set<int>
    var rows: seq<StoredMessage>
    var statistics: seq<Statistic>

    function Value(): Store
      reads this
    {
      Store(rows, statistics)
    }

    method CollectMedia(originals: seq<Message>, l: Limits) returns (media: seq<Content>)
      ensures media == AllMedia(originals, l)
    {
      media := [];
      var i := 0;
      while i < |originals|
        invariant 0 <= i <= |originals| && media == AllMedia(originals[..i], l)
      {
        assert originals[..i + 1][..i] == originals[..i];
        var original := originals[i];
        i := i + 1;
        match original.media {
          case Photo(content) =>
            if content.None? || |content.value| > l.images {
              continue;
            }
            media := media + [content.value];
          case Document(size, content) =>
            if size.None? || size.value > l.documents || content.None? {
              continue;
            }
            media := media + [content.value];
          case NoMedia =>
        }
      }
      assert originals[..i] == originals;
    }

    /** One run: every collected message updates its row or gets one, and adds a statistic
        row; media are stored with new rows only. An unknown channel changes nothing. */
    method ProcessMessages(channel: int, collected: seq<Parsed>, l: Limits) returns (ok: bool)
      modifies this
      ensures ok <==> channel in old(channels)
      ensures Value() == if ok then PutAll(old(Value()), channel, collected, l) else old(Value())
      ensures channels == old(channels)
    {
      if channel !in channels {
        return false;
      }
      var i := 0;
      while i < |collected|
        invariant 0 <= i <= |collected| && channels == old(channels)
        invariant Value() == PutAll(old(Value()), channel, collected[..i], l)
      {
        assert collected[..i + 1][..i] == collected[..i];
        var message := collected[i];
        var k := Find(rows, channel, message.id);
        if k < |rows| {
          rows := rows[k := rows[k].(text := OrEmpty(message.text), html := OrEmpty(message.html))];
        } else {
          var media := CollectMedia(message.originals, l);
          rows := rows + [StoredMessage(channel, message.id, message.createdAt, OrEmpty(message.text),
              OrEmpty(message.html), media)];
        }
        statistics := statistics + [Statistic(k, message.views)];
        i := i + 1;
      }
      assert collected[..i] == collected;
      ok := true;
    }
  }

  // ---------- Any number of runs ----------

  predicate UniqueRows(s: Store) {
    forall i, j :: 0 <= i < j < |s.rows|
      ==> !(s.rows[i].channel == s.rows[j].channel && s.rows[i].messageId == s.rows[j].messageId)
  }

  predicate Consistent(s: Store) {
    UniqueRows(s) && forall i :: 0 <= i < |s.statistics| ==> s.statistics[i].message < |s.rows|
  }

  function PutRuns(s: Store, channel: int, runs: seq<seq<Parsed>>, l: Limits): Store {
    if runs == [] then s
    else
      var n := |runs| - 1;
      PutAll(PutRuns(s, channel, runs[..n], l), channel, runs[n], l)
  }

  function Flat(runs: seq<seq<Parsed>>): seq<Parsed> {
    if runs == [] then []
    else
      var n := |runs| - 1;
      Flat(runs[..n]) + runs[n]
  }

  lemma {:induction false} PutAllConcat(s: Store, channel: int, first: seq<Parsed>, second: seq<Parsed>, l: Limits)
    ensures PutAll(s, channel, first + second, l) == PutAll(PutAll(s, channel, first, l), channel, second, l)
  {
    hide Put;
    if second == [] {
      assert first + second == first;
    } else {
      var n := |second| - 1;
      assert (first + second)[..|first| + n] == first + second[..n];
      PutAllConcat(s, channel, first, second[..n], l);
    }
  }

  lemma {:induction false} RunsAreOneList(s: Store, channel: int, runs: seq<seq<Parsed>>, l: Limits)
    ensures PutRuns(s, channel, runs, l) == PutAll(s, channel, Flat(runs), l)
  {
    if runs != [] {
      var n := |runs| - 1;
      RunsAreOneList(s, channel, runs[..n], l);
      PutAllConcat(s, channel, Flat(runs[..n]), runs[n], l);
    }
  }

  /** The views in the statistic rows of a message row, in order. */
  function Measured(statistics: seq<Statistic>, k: nat): seq<nat> {
    if statistics == [] then []
    else
      var n := |statistics| - 1;
      Measured(statistics[..n], k) + if statistics[n].message == k then [statistics[n].views] else []
  }

  lemma MeasuredAppended(statistics: seq<Statistic>, one: Statistic, k: nat)
    ensures one.message == k ==> Measured(statistics + [one], k) == Measured(statistics, k) + [one.views]
    ensures one.message != k ==> Measured(statistics + [one], k) == Measured(statistics, k)
  {
    assert (statistics + [one])[..|statistics|] == statistics;
  }

  lemma {:induction false} NotMeasuredYet(statistics: seq<Statistic>, k: nat)
    requires forall i :: 0 <= i < |statistics| ==> statistics[i].message < k
    ensures Measured(statistics, k) == []
  {
    if statistics != [] {
      NotMeasuredYet(statistics[..|statistics| - 1], k);
    }
  }

  /** The views of the collected records of an id, in order. */
  function Occurrences(collected: seq<Parsed>, id: int): seq<nat> {
    if collected == [] then []
    else
      var n := |collected| - 1;
      Occurrences(collected[..n], id) + if collected[n].id == id then [collected[n].views] else []
  }

  /** A row and the views of its statistic rows, against the collected records of its id. */
  ghost predicate Tells(row: StoredMessage, measured: seq<nat>, id: int, collected: seq<Parsed>, l: Limits) {
    && measured == Occurrences(collected, id)
    && (forall i ::
          0 <= i < |collected| && collected[i].id == id && (forall j :: 0 <= j < i ==> collected[j].id != id) ==>
          row.createdAt == collected[i].createdAt && row.media == AllMedia(collected[i].originals, l))
    && (forall i ::
          && 0 <= i < |collected| && collected[i].id == id
          && (forall j :: i < j < |collected| ==> collected[j].id != id) ==>
          && row.text == (match collected[i].text { case Some(text) => text case None => "" })
          && row.html == (match collected[i].html { case Some(html) => html case None => "" }))
  }

  ghost predicate RowTells(s: Store, channel: int, id: int, collected: seq<Parsed>, l: Limits)
    requires Find(s.rows, channel, id) < |s.rows|
  {
    var k := Find(s.rows, channel, id);
    Tells(s.rows[k], Measured(s.statistics, k), id, collected, l)
  }

  lemma FindIs(rows: seq<StoredMessage>, channel: int, id: int, k: nat)
    requires k <= |rows| && (k < |rows| ==> IsRow(rows[k], channel, id)) && forall i ::
            0 <= i < k ==> !IsRow(rows[i], channel, id)
    ensures Find(rows, channel, id) == k
  {
  }

  lemma PutKeepsConsistent(s: Store, channel: int, p: Parsed, l: Limits)
    requires Consistent(s)
    ensures Consistent(Put(s, channel, p, l))
  {
    var k := Find(s.rows, channel, p.id);
    if k == |s.rows| {
      forall i | 0 <= i < |s.rows| ensures !IsRow(s.rows[i], channel, p.id) {
      }
    }
  }

  /** Storing a message does not move the row of another. */
  lemma OtherRowStays(s: Store, channel: int, p: Parsed, l: Limits, c: int, id: int)
    requires c != channel || id != p.id
    ensures var t := Put(s, channel, p, l);
            var k := Find(s.rows, c, id);
            if k < |s.rows| then Find(t.rows, c, id) == k && t.rows[k] == s.rows[k]
            else Find(t.rows, c, id) == |t.rows|
  {
    var t := Put(s, channel, p, l);
    var k := Find(s.rows, c, id);
    FindIs(t.rows, c, id, if k < |s.rows| then k else |t.rows|);
  }

  lemma OwnRow(s: Store, channel: int, p: Parsed, l: Limits)
    ensures Find(Put(s, channel, p, l).rows, channel, p.id) == Find(s.rows, channel, p.id)
  {
    FindIs(Put(s, channel, p, l).rows, channel, p.id, Find(s.rows, channel, p.id));
  }

  lemma {:induction false} NoOccurrence(collected: seq<Parsed>, id: int)
    ensures Occurrences(collected, id) == [] <==> forall i :: 0 <= i < |collected| ==> collected[i].id != id
  {
    if collected != [] {
      NoOccurrence(collected[..|collected| - 1], id);
    }
  }

  lemma TellsMore(row: StoredMessage, later: StoredMessage, measured: seq<nat>, p: Parsed, front: seq<Parsed>,
      l: Limits)
    requires Occurrences(front, p.id) != [] ==>
            Tells(row, measured, p.id, front, l) && (later.createdAt, later.media) == (row.createdAt, row.media)
    requires Occurrences(front, p.id) == [] ==>
            measured == [] && (later.createdAt, later.media) == (p.createdAt, AllMedia(p.originals, l))
    requires (later.text, later.html) == (OrEmpty(p.text), OrEmpty(p.html))
    ensures Tells(later, measured + [p.views], p.id, front + [p], l)
  {
    var all := front + [p];
    assert all[..|front|] == front;
    NoOccurrence(front, p.id);
    hide AllMedia, Occurrences;
    forall i | 0 <= i < |all| && all[i].id == p.id && forall j :: 0 <= j < i ==> all[j].id != p.id
      ensures later.createdAt == all[i].createdAt && later.media == AllMedia(all[i].originals, l)
    {
      if i < |front| {
        assert front[i] == all[i] && forall j :: 0 <= j < i ==> front[j] == all[j];
      }
    }
    forall i | 0 <= i < |all| && all[i].id == p.id && forall j :: i < j < |all| ==> all[j].id != p.id
      ensures later.text == OrEmpty(all[i].text) && later.html == OrEmpty(all[i].html)
    {
      assert all[|front|].id == p.id;
    }
  }

  lemma TellsAsBefore(row: StoredMessage, measured: seq<nat>, id: int, p: Parsed, front: seq<Parsed>, l: Limits)
    requires Tells(row, measured, id, front, l) && p.id != id
    ensures Tells(row, measured, id, front + [p], l)
  {
    var all := front + [p];
    assert all[..|front|] == front;
    assert Occurrences(all, id) == Occurrences(front, id);
    hide AllMedia, Occurrences;
    forall i | 0 <= i < |all| && all[i].id == id && forall j :: i < j < |all| ==> all[j].id != id
      ensures row.text == OrEmpty(all[i].text) && row.html == OrEmpty(all[i].html)
    {
      assert front[i] == all[i] && forall j :: i < j < |front| ==> front[j] == all[j];
    }
    forall i | 0 <= i < |all| && all[i].id == id && forall j :: 0 <= j < i ==> all[j].id != id
      ensures row.createdAt == all[i].createdAt && row.media == AllMedia(all[i].originals, l)
    {
      assert front[i] == all[i] && forall j :: 0 <= j < i ==> front[j] == all[j];
    }
  }

  /** One more record of this id. */
  lemma OwnRecord(s: Store, channel: int, front: seq<Parsed>, p: Parsed, l: Limits)
    requires Consistent(s)
    requires Find(s.rows, channel, p.id) < |s.rows| <==> Occurrences(front, p.id) != []
    requires Find(s.rows, channel, p.id) < |s.rows| ==> RowTells(s, channel, p.id, front, l)
    ensures var t := Put(s, channel, p, l);
            Find(t.rows, channel, p.id) < |t.rows| && RowTells(t, channel, p.id, front + [p], l)
  {
    hide Tells;
    var t, k := Put(s, channel, p, l), Find(s.rows, channel, p.id);
    OwnRow(s, channel, p, l);
    MeasuredAppended(s.statistics, Statistic(k, p.views), k);
    if k == |s.rows| {
      NotMeasuredYet(s.statistics, k);
    }
    TellsMore(if k < |s.rows| then s.rows[k] else t.rows[k], t.rows[k], Measured(s.statistics, k), p, front, l);
  }

  /** One more record of another id. */
  lemma OtherRecord(s: Store, channel: int, front: seq<Parsed>, p: Parsed, l: Limits, id: int)
    requires id != p.id && Consistent(s)
    requires Find(s.rows, channel, id) < |s.rows| && RowTells(s, channel, id, front, l)
    ensures var t := Put(s, channel, p, l);
            Find(t.rows, channel, id) < |t.rows| && RowTells(t, channel, id, front + [p], l)
  {
    hide Tells, Find, Measured, AllMedia, OrEmpty;
    var k, other := Find(s.rows, channel, id), Find(s.rows, channel, p.id);
    OtherRowStays(s, channel, p, l, channel, id);
    assert other != k;
    MeasuredAppended(s.statistics, Statistic(other, p.views), k);
    TellsAsBefore(s.rows[k], Measured(s.statistics, k), id, p, front, l);
  }

  lemma {:induction false} ListHistory(s: Store, channel: int, collected: seq<Parsed>, l: Limits, id: int)
    requires Consistent(s) && Find(s.rows, channel, id) == |s.rows|
    ensures var t := PutAll(s, channel, collected, l);
            && Consistent(t)
            && (Find(t.rows, channel, id) < |t.rows| <==> Occurrences(collected, id) != [])
            && (Find(t.rows, channel, id) < |t.rows| ==> RowTells(t, channel, id, collected, l))
  {
    hide Consistent, Find, Put, RowTells;
    if collected != [] {
      var n := |collected| - 1;
      var front, p := collected[..n], collected[n];
      var before := PutAll(s, channel, front, l);
      ListHistory(s, channel, front, l, id);
      PutKeepsConsistent(before, channel, p, l);
      assert collected == front + [p];
      if p.id == id {
        OwnRecord(before, channel, front, p, l);
      } else {
        OtherRowStays(before, channel, p, l, channel, id);
        if Find(before.rows, channel, id) < |before.rows| {
          OtherRecord(before, channel, front, p, l, id);
        }
      }
    }
  }

  predicate DistinctIds(run: seq<Parsed>) { forall i, j :: 0 <= i < j < |run| ==> run[i].id != run[j].id }

  predicate Contains(run: seq<Parsed>, id: int) { exists i :: 0 <= i < |run| && run[i].id == id }

  /** The number of runs that collected the id. */
  function RunsWith(runs: seq<seq<Parsed>>, id: int): nat {
    if runs == [] then 0
    else
      var n := |runs| - 1;
      RunsWith(runs[..n], id) + if Contains(runs[n], id) then 1 else 0
  }

  lemma {:induction false} OccurrencesConcat(first: seq<Parsed>, second: seq<Parsed>, id: int)
    ensures Occurrences(first + second, id) == Occurrences(first, id) + Occurrences(second, id)
  {
    if second == [] {
      assert first + second == first;
    } else {
      var n := |second| - 1;
      assert (first + second)[..|first| + n] == first + second[..n];
      OccurrencesConcat(first, second[..n], id);
    }
  }

  lemma {:induction false} OnceIfDistinct(run: seq<Parsed>, id: int)
    requires DistinctIds(run)
    ensures |Occurrences(run, id)| == if Contains(run, id) then 1 else 0
  {
    if run != [] {
      var n := |run| - 1;
      OnceIfDistinct(run[..n], id);
      NoOccurrence(run[..n], id);
      NoOccurrence(run, id);
      if run[n].id == id {
        assert forall i :: 0 <= i < n ==> run[..n][i].id != id;
      }
    }
  }

  lemma {:induction false} RunsCounted(runs: seq<seq<Parsed>>, id: int)
    requires forall i :: 0 <= i < |runs| ==> DistinctIds(runs[i])
    ensures |Occurrences(Flat(runs), id)| == RunsWith(runs, id)
  {
    if runs != [] {
      var n := |runs| - 1;
      RunsCounted(runs[..n], id);
      OccurrencesConcat(Flat(runs[..n]), runs[n], id);
      OnceIfDistinct(runs[n], id);
    }
  }

  /** Over any runs on a channel that start from a store without the message: there is one
      row per message id, exactly if some run collected it; its statistic rows hold the views
      that the runs collected, in order, one for each run that did; its text is the latest
      run's; its date and media are the first run's. */
  lemma StoreHistory(s: Store, channel: int, runs: seq<seq<Parsed>>, l: Limits, id: int)
    requires Consistent(s) && Find(s.rows, channel, id) == |s.rows|
    requires forall i :: 0 <= i < |runs| ==> DistinctIds(runs[i])
    ensures var t := PutRuns(s, channel, runs, l);
            var k := Find(t.rows, channel, id);
            && UniqueRows(t)
            && (k < |t.rows| <==> RunsWith(runs, id) > 0)
            && (k < |t.rows| ==>
                  |Measured(t.statistics, k)| == RunsWith(runs, id) && RowTells(t, channel, id, Flat(runs), l))
  {
    RunsAreOneList(s, channel, runs, l);
    ListHistory(s, channel, Flat(runs), l, id);
    RunsCounted(runs, id);
  }

  /** A run touches no other channel. */
  lemma {:induction false} OtherChannelsStay(s: Store, channel: int, collected: seq<Parsed>, l: Limits, c: int, id: int)
    requires c != channel && Find(s.rows, c, id) < |s.rows|
    ensures var t := PutAll(s, channel, collected, l);
            var k := Find(s.rows, c, id);
            k < |t.rows| && Find(t.rows, c, id) == k && t.rows[k] == s.rows[k]
  {
    if collected != [] {
      var n := |collected| - 1;
      OtherChannelsStay(s, channel, collected[..n], l, c, id);
      OtherRowStays(PutAll(s, channel, collected[..n], l), channel, collected[n], l, c, id);
    }
  }

  /** What one run collects has distinct ids when the messages have. */
  lemma {:induction false} CollectedIdsDistinct(messages: seq<Message>, limit: int)
    requires forall i, j :: 0 <= i < j < |messages| ==> messages[i].id != messages[j].id
    ensures DistinctIds(Groups(Recent(messages, limit)))
  {
    var recent := Recent(messages, limit);
    DatedKeepDistinct(messages[..Cut(messages, limit)]);
    forall i: nat, j: nat | i < j < |Groups(recent)| ensures Groups(recent)[i].id != Groups(recent)[j].id {
      GroupIdsDistinct(recent, i, j);
    }
  }

  lemma {:induction false} DatedKeepDistinct(messages: seq<Message>)
    requires forall i, j :: 0 <= i < j < |messages| ==> messages[i].id != messages[j].id
    ensures forall i, j :: 0 <= i < j < |Dated(messages)| ==> Dated(messages)[i].id != Dated(messages)[j].id
  {
    if messages != [] {
      var n := |messages| - 1;
      hide Dated;
      DatedKeepDistinct(messages[..n]);
      DatedAppended(messages, n);
      assert messages[..n + 1] == messages;
      forall i | 0 <= i < |Dated(messages[..n])| ensures Dated(messages[..n])[i].id != messages[n].id {
        assert Dated(messages[..n])[i] in messages[..n];
      }
    }
  }
}
