/** `_collect_messages`: folding a channel's messages, newest first, into albums and single
    posts, against the group-by it stands for. */
module Messages {
  import opened Options

  /** A Telegram message; `html` is what the entities make of its text. A media outcome is
      carried along for the store. */
  datatype Message = Message(id: int, groupedId: Option<int>, date: Option<int>, text: Option<string>,
                             html: Option<string>, views: Option<nat>, media: Media)
  {
    /** Zero and a missing id both mean that the message stands alone. */
    function Key(): int { if groupedId.Some? && groupedId.value != 0 then groupedId.value else id }

    function Views(): nat { if views.Some? then views.value else 0 }

    predicate HasText() { text.Some? && text.value != "" }
  }

  /** What a download would bring. */
  datatype Media =
    | NoMedia
    | Photo(content: Option<seq<bv8>>)
    | Document(size: Option<nat>, content: Option<seq<bv8>>)

  datatype Parsed = Parsed(id: int, views: nat, text: Option<string>, html: Option<string>, createdAt: int,
      originals: seq<Message>)

  predicate TooOld(m: Message, limit: int) { m.date.Some? && m.date.value < limit }

  // ---------- The group-by ----------

  /** The number of messages before the first one that is too old. */
  function Cut(messages: seq<Message>, limit: int): (n: nat)
    ensures n <= |messages| && (forall i :: 0 <= i < n ==> !TooOld(messages[i], limit))
    ensures n < |messages| ==> TooOld(messages[n], limit)
  {
    if messages == [] || TooOld(messages[0], limit) then 0 else 1 + Cut(messages[1..], limit)
  }

  function Filter(messages: seq<Message>, p: Message -> bool): (r: seq<Message>)
    ensures forall m :: m in r <==> m in messages && p(m)
  {
    if messages == [] then []
    else
      var n := |messages| - 1;
      Filter(messages[..n], p) + if p(messages[n]) then [messages[n]] else []
  }

  function IsDated(): Message -> bool { (m: Message) => m.date.Some? }

  function HasKey(key: int): Message -> bool { (m: Message) => m.Key() == key }

  function Dated(messages: seq<Message>): (r: seq<Message>)
    ensures forall m :: m in r <==> m in messages && m.date.Some?
  {
    Filter(messages, IsDated())
  }

  /** The messages that count: dated, before the first one that is too old. */
  function Recent(messages: seq<Message>, limit: int): (r: seq<Message>)
    ensures AllDated(r)
  {
    Dated(messages[..Cut(messages, limit)])
  }

  predicate AllDated(messages: seq<Message>) { forall m :: m in messages ==> m.date.Some? }

  function Members(messages: seq<Message>, key: int): (r: seq<Message>)
    ensures forall m :: m in r <==> m in messages && m.Key() == key
  {
    Filter(messages, HasKey(key))
  }

  /** Group keys in the order they are first seen. */
  function Keys(messages: seq<Message>): (r: seq<int>)
    ensures forall k :: k in r <==> exists m :: m in messages && m.Key() == k
    ensures forall i, j :: 0 <= i < j < |r| ==> r[i] != r[j]
  {
    if messages == [] then []
    else
      var n := |messages| - 1;
      var before := Keys(messages[..n]);
      var k := messages[n].Key();
      assert forall m :: m in messages <==> m in messages[..n] || m == messages[n];
      if k in before then before else before + [k]
  }

  /** The first position where the predicate holds, or the length. */
  function First(messages: seq<Message>, p: Message -> bool): (n: nat)
    ensures n <= |messages| && (forall i :: 0 <= i < n ==> !p(messages[i])) && (n < |messages| ==> p(messages[n]))
  {
    if messages == [] || p(messages[0]) then 0 else 1 + First(messages[1..], p)
  }

  function IsLeast(messages: seq<Message>): Message -> bool {
    (m: Message) => forall i :: 0 <= i < |messages| ==> m.id <= messages[i].id
  }

  function WithViews(): Message -> bool { (m: Message) => m.Views() != 0 }

  function WithText(): Message -> bool { (m: Message) => m.HasText() }

  lemma {:induction false} SomeLeast(messages: seq<Message>)
    requires messages != []
    ensures exists i :: 0 <= i < |messages| && IsLeast(messages)(messages[i])
  {
    var n := |messages| - 1;
    if n == 0 {
      assert IsLeast(messages)(messages[0]);
    } else {
      SomeLeast(messages[..n]);
      var i :| 0 <= i < n && IsLeast(messages[..n])(messages[..n][i]);
      var best := if messages[n].id < messages[i].id then n else i;
      assert forall k :: 0 <= k < n ==> messages[..n][k] == messages[k];
      assert IsLeast(messages)(messages[best]);
    }
  }

  /** The message with the smallest id of a group, its first post. */
  function Least(messages: seq<Message>): (n: nat)
    requires messages != []
    ensures n < |messages| && forall i :: 0 <= i < |messages| ==> messages[n].id <= messages[i].id
  {
    SomeLeast(messages);
    First(messages, IsLeast(messages))
  }

  /** The message whose text a group shows: the first with text, else the first. */
  function Speaker(messages: seq<Message>): (n: nat)
    requires messages != []
    ensures n < |messages|
  {
    var n := First(messages, WithText());
    if n < |messages| then n else 0
  }

  function GroupViews(messages: seq<Message>): nat {
    var n := First(messages, WithViews());
    if n < |messages| then messages[n].Views() else 0
  }

  /** One group: the smallest id and its date, the first views that are not zero, text and
      HTML of one and the same message, and all its messages. */
  function Group(messages: seq<Message>): Parsed
    requires messages != [] && AllDated(messages)
  {
    var least, speaker := Least(messages), Speaker(messages);
    Parsed(messages[least].id, GroupViews(messages), messages[speaker].text, messages[speaker].html,
           messages[least].date.value, messages)
  }

  lemma KeyHasMembers(messages: seq<Message>, key: int)
    ensures key in Keys(messages) <==> Members(messages, key) != []
  {
    if Members(messages, key) == [] {
      assert forall m :: m in messages && m.Key() == key ==> m in Members(messages, key);
    } else {
      assert Members(messages, key)[0] in Members(messages, key);
    }
  }

  function GroupAt(messages: seq<Message>, key: int): Parsed
    requires AllDated(messages) && key in Keys(messages)
  {
    KeyHasMembers(messages, key);
    Group(Members(messages, key))
  }

  function Groups(messages: seq<Message>): (r: seq<Parsed>)
    requires AllDated(messages)
    ensures |r| == |Keys(messages)| && forall i :: 0 <= i < |r| ==> r[i] == GroupAt(messages, Keys(messages)[i])
  {
    seq(|Keys(messages)|, i requires 0 <= i < |Keys(messages)| => GroupAt(messages, Keys(messages)[i]))
  }

  // ---------- One more message ----------

  lemma {:induction false} FirstAppended(messages: seq<Message>, m: Message, p: Message -> bool)
    ensures First(messages + [m], p)
            == if First(messages, p) < |messages| || p(m) then First(messages, p) else |messages| + 1
  {
    if messages == [] {
      assert [m][1..] == [];
    } else {
      assert (messages + [m])[1..] == messages[1..] + [m];
      FirstAppended(messages[1..], m, p);
    }
  }

  /** The first position is fixed by what it is. */
  lemma FirstIs(messages: seq<Message>, p: Message -> bool, n: nat)
    requires n < |messages| && p(messages[n]) && forall i :: 0 <= i < n ==> !p(messages[i])
    ensures First(messages, p) == n
  {
  }

  lemma LeastAppended(messages: seq<Message>, m: Message)
    requires messages != []
    ensures Least(messages + [m]) == if m.id < messages[Least(messages)].id then |messages| else Least(messages)
  {
    var more, n := messages + [m], Least(messages);
    var best := if m.id < messages[n].id then |messages| else n;
    forall i | 0 <= i < best ensures !IsLeast(more)(more[i]) {
      if best == n {
        assert !IsLeast(messages)(messages[i]);
        var k :| 0 <= k < |messages| && messages[i].id > messages[k].id;
        assert more[k].id < more[i].id;
      } else {
        assert more[|messages|].id < more[i].id;
      }
    }
    assert IsLeast(more)(more[best]);
    FirstIs(more, IsLeast(more), best);
  }

  function ToParsed(m: Message): Parsed
    requires m.date.Some?
  {
    Parsed(m.id, m.Views(), m.text, m.html, m.date.value, [m])
  }

  lemma GroupOfOne(m: Message)
    requires m.date.Some?
    ensures Group([m]) == ToParsed(m)
  {
    assert [m][1..] == [];
    FirstAppended([], m, WithViews());
    FirstAppended([], m, WithText());
    assert [] + [m] == [m];
  }

  /** What the loop does to the record of a group that it has seen before. */
  function Absorb(g: Parsed, m: Message): Parsed
    requires m.date.Some?
  {
    var takesText := m.HasText() && !(g.text.Some? && g.text.value != "");
    var older := m.id < g.id;
    Parsed(if older then m.id else g.id,
           if m.Views() != 0 && g.views == 0 then m.Views() else g.views,
           if takesText then m.text else g.text,
           if takesText then m.html else g.html,
           if older then m.date.value else g.createdAt,
           g.originals + [m])
  }

  lemma GroupAppended(messages: seq<Message>, m: Message)
    requires messages != [] && AllDated(messages) && m.date.Some?
    ensures Group(messages + [m]) == Absorb(Group(messages), m)
  {
    LeastAppended(messages, m);
    FirstAppended(messages, m, WithViews());
    FirstAppended(messages, m, WithText());
  }

  lemma FilterAppended(messages: seq<Message>, m: Message, p: Message -> bool)
    ensures Filter(messages + [m], p) == Filter(messages, p) + if p(m) then [m] else []
  {
    assert (messages + [m])[..|messages|] == messages;
  }

  lemma KeysAppended(messages: seq<Message>, m: Message)
    ensures Keys(messages + [m]) == if m.Key() in Keys(messages) then Keys(messages) else Keys(messages) + [m.Key()]
  {
    assert (messages + [m])[..|messages|] == messages;
  }

  // ---------- What the groups are ----------

  predicate Viewless(m: Message) { m.views == None || m.views == Some(0) }

  predicate Silent(m: Message) { m.text == None || m.text == Some("") }

  /** A record and its messages: their smallest id with the date of such a message, the first
      views that are not zero, and text and HTML of one message, the first that has text, or the
      first of all. */
  ghost predicate Describes(g: Parsed) {
    var messages := g.originals;
    && messages != []
    && (forall m :: m in messages ==> g.id <= m.id)
    && (exists m :: m in messages && g.id == m.id && m.date == Some(g.createdAt))
    && (g.views == 0 <==> forall m :: m in messages ==> Viewless(m))
    && (forall i ::
          0 <= i < |messages| && !Viewless(messages[i]) && (forall j :: 0 <= j < i ==> Viewless(messages[j])) ==>
          messages[i].views == Some(g.views))
    && ((forall m :: m in messages ==> Silent(m)) ==> g.text == messages[0].text && g.html == messages[0].html)
    && (forall i ::
          0 <= i < |messages| && !Silent(messages[i]) && (forall j :: 0 <= j < i ==> Silent(messages[j])) ==>
          g.text == messages[i].text && g.html == messages[i].html)
  }

  lemma FirstViews(messages: seq<Message>)
    requires messages != []
    ensures GroupViews(messages) == 0 <==> forall m :: m in messages ==> Viewless(m)
    ensures forall i ::
              0 <= i < |messages| && !Viewless(messages[i]) && (forall j :: 0 <= j < i ==> Viewless(messages[j])) ==>
              messages[i].views == Some(GroupViews(messages))
  {
    var v := First(messages, WithViews());
    if v < |messages| {
      assert messages[v] in messages;
    }
    forall i | 0 <= i < |messages| && !Viewless(messages[i]) && forall j :: 0 <= j < i ==> Viewless(messages[j])
      ensures messages[i].views == Some(GroupViews(messages))
    {
      FirstIs(messages, WithViews(), i);
    }
  }

  lemma FirstText(messages: seq<Message>)
    requires messages != []
    ensures (forall m :: m in messages ==> Silent(m)) ==> Speaker(messages) == 0
    ensures forall i ::
              0 <= i < |messages| && !Silent(messages[i]) && (forall j :: 0 <= j < i ==> Silent(messages[j])) ==>
              Speaker(messages) == i
  {
    var n := First(messages, WithText());
    if n < |messages| {
      assert messages[n] in messages && !Silent(messages[n]);
    }
    forall i | 0 <= i < |messages| && !Silent(messages[i]) && forall j :: 0 <= j < i ==> Silent(messages[j])
      ensures Speaker(messages) == i
    {
      FirstIs(messages, WithText(), i);
    }
  }

  /** The record of a group, without saying how it is found. */
  lemma {:induction false} GroupMeaning(messages: seq<Message>)
    requires messages != [] && AllDated(messages)
    ensures Group(messages).originals == messages && Describes(Group(messages))
  {
    var least, speaker := Least(messages), Speaker(messages);
    assert messages[least] in messages && messages[speaker] in messages;
    FirstViews(messages);
    FirstText(messages);
  }

  /** The two messages have one album id that is not zero, or the album id of the one is the id
      of the other, which stands alone, or both stand alone and have one id. */
  predicate Together(a: Message, b: Message) {
    (if a.groupedId == None || a.groupedId == Some(0) then a.id else a.groupedId.value)
    == (if b.groupedId == None || b.groupedId == Some(0) then b.id else b.groupedId.value)
  }

  /** Just the messages before the first one that is dated before the limit. */
  predicate BeforeTooOld(messages: seq<Message>, limit: int, n: int) {
    && 0 <= n <= |messages|
    && (forall i :: 0 <= i < n && messages[i].date.Some? ==> messages[i].date.value >= limit)
    && (n < |messages| ==> messages[n].date.Some? && messages[n].date.value < limit)
  }

  /** The records of these messages: every one that has a date is in some record, as often as
      received, and nothing else is; two are in one record exactly if they belong together. */
  ghost predicate Albums(messages: seq<Message>, r: seq<Parsed>) {
    && (forall m :: m in messages && m.date.Some? ==> exists k :: 0 <= k < |r| && m in r[k].originals)
    && (forall k, m :: 0 <= k < |r| && m in r[k].originals ==>
          m in messages && m.date.Some? && multiset(r[k].originals)[m] == multiset(messages)[m])
    && (forall i, j, a, b ::
          0 <= i < |r| && 0 <= j < |r| && a in r[i].originals && b in r[j].originals ==> (i == j <==> Together(a, b)))
    && forall k :: 0 <= k < |r| ==> Describes(r[k])
  }

  lemma {:induction false} FilterCounts(messages: seq<Message>, p: Message -> bool, m: Message)
    ensures multiset(Filter(messages, p))[m] == if p(m) then multiset(messages)[m] else 0
  {
    if messages != [] {
      var n := |messages| - 1;
      FilterCounts(messages[..n], p, m);
      assert messages == messages[..n] + [messages[n]];
    }
  }

  /** The message is in one group, that many times, and in no other. */
  ghost predicate OnlyIn(groups: seq<Parsed>, i: int, m: Message, times: nat)
    requires 0 <= i < |groups|
  {
    && multiset(groups[i].originals)[m] == times
    && forall j :: 0 <= j < |groups| && j != i ==> m !in groups[j].originals
  }

  /** Every message is in exactly one group, as often as it was received, and the groups hold
      nothing else. */
  lemma GroupsPartition(messages: seq<Message>, m: Message)
    requires AllDated(messages)
    ensures var groups := Groups(messages);
            && (m in messages ==> exists i :: 0 <= i < |groups| && OnlyIn(groups, i, m, multiset(messages)[m]))
            && forall i :: 0 <= i < |groups| && m in groups[i].originals ==> m in messages
  {
    var groups, keys := Groups(messages), Keys(messages);
    forall i | 0 <= i < |groups| ensures groups[i].originals == Members(messages, keys[i]) {
    }
    FilterCounts(messages, HasKey(m.Key()), m);
    if m in messages {
      assert m.Key() in keys;
      var i :| 0 <= i < |keys| && keys[i] == m.Key();
      assert OnlyIn(groups, i, m, multiset(messages)[m]);
    }
  }

  lemma TogetherIff(a: Message, b: Message)
    ensures Together(a, b) <==> a.Key() == b.Key()
  {
  }

  lemma CutIs(messages: seq<Message>, limit: int, n: int)
    requires BeforeTooOld(messages, limit, n)
    ensures Cut(messages, limit) == n && Recent(messages, limit) == Dated(messages[..n])
  {
    assert n < |messages| ==> TooOld(messages[n], limit);
    assert Cut(messages, limit) == n;
  }

  lemma OriginalsAreMembers(messages: seq<Message>, k: nat)
    requires AllDated(messages) && k < |Groups(messages)|
    ensures Members(messages, Keys(messages)[k]) != []
    ensures Groups(messages)[k].originals == Members(messages, Keys(messages)[k]) && Describes(Groups(messages)[k])
  {
    hide Describes, Group, Members;
    KeyHasMembers(messages, Keys(messages)[k]);
    GroupMeaning(Members(messages, Keys(messages)[k]));
  }

  lemma SameGroupIff(messages: seq<Message>, i: nat, j: nat, a: Message, b: Message)
    requires AllDated(messages) && i < |Groups(messages)| && j < |Groups(messages)|
    requires a in Groups(messages)[i].originals && b in Groups(messages)[j].originals
    ensures i == j <==> Together(a, b)
  {
    hide Describes, Together, Group;
    OriginalsAreMembers(messages, i);
    OriginalsAreMembers(messages, j);
    TogetherIff(a, b);
  }

  lemma InOneGroup(messages: seq<Message>, k: nat, m: Message)
    requires k < |Groups(Dated(messages))| && m in Groups(Dated(messages))[k].originals
    ensures m in messages && m.date.Some?
    ensures multiset(Groups(Dated(messages))[k].originals)[m] == multiset(messages)[m]
  {
    hide Describes, Group;
    var dated := Dated(messages);
    OriginalsAreMembers(dated, k);
    FilterCounts(messages, IsDated(), m);
    FilterCounts(dated, HasKey(Keys(dated)[k]), m);
  }

  lemma SomeGroupHas(messages: seq<Message>, m: Message)
    requires m in messages && m.date.Some?
    ensures var r := Groups(Dated(messages)); exists k :: 0 <= k < |r| && m in r[k].originals
  {
    hide Group, Dated;
    var dated := Dated(messages);
    assert m in dated && m.Key() in Keys(dated);
    var k :| 0 <= k < |Keys(dated)| && Keys(dated)[k] == m.Key();
    OriginalsAreMembers(dated, k);
  }

  lemma GroupsAreAlbums(messages: seq<Message>)
    ensures Albums(messages, Groups(Dated(messages)))
  {
    hide Describes, Together, Group, Groups, Dated;
    var dated, r := Dated(messages), Groups(Dated(messages));
    forall m | m in messages && m.date.Some? ensures exists k :: 0 <= k < |r| && m in r[k].originals {
      SomeGroupHas(messages, m);
    }
    forall k, m | 0 <= k < |r| && m in r[k].originals
      ensures m in messages && m.date.Some? && multiset(r[k].originals)[m] == multiset(messages)[m]
    {
      InOneGroup(messages, k, m);
    }
    forall i, j, a, b | 0 <= i < |r| && 0 <= j < |r| && a in r[i].originals && b in r[j].originals
      ensures i == j <==> Together(a, b)
    {
      SameGroupIff(dated, i, j, a, b);
    }
    forall k | 0 <= k < |r| ensures Describes(r[k]) {
      OriginalsAreMembers(dated, k);
    }
  }

  /** A message without an album, whose id no other message has as its id or its album, is a
      record of its own. */
  lemma StandsAlone(messages: seq<Message>, r: seq<Parsed>, i: nat) returns (k: nat)
    requires Albums(messages, r) && i < |messages| && messages[i].date.Some?
    requires messages[i].groupedId == None || messages[i].groupedId == Some(0)
    requires forall j :: 0 <= j < |messages| && j != i ==>
               messages[j].id != messages[i].id && messages[j].groupedId != Some(messages[i].id)
    ensures k < |r|
    ensures var m := messages[i];
            && r[k].originals == [m] && r[k].id == m.id && Some(r[k].createdAt) == m.date
            && r[k].text == m.text && r[k].html == m.html
            && r[k].views == (match m.views { case Some(views) => views case None => 0 })
  {
    hide Describes;
    var m := messages[i];
    k :| 0 <= k < |r| && m in r[k].originals;
    var g := r[k];
    forall p | 0 <= p < |g.originals| ensures g.originals[p] == m {
      var x := g.originals[p];
      assert x in g.originals && Together(x, m);
      var j :| 0 <= j < |messages| && messages[j] == x;
    }
    OnlyOnce(messages, i);
    AllTheSame(g.originals, m);
    assert g.originals == [m];
    DescribesOne(g, m);
  }

  lemma DescribesOne(g: Parsed, m: Message)
    requires Describes(g) && g.originals == [m]
    ensures g.id == m.id && Some(g.createdAt) == m.date && g.text == m.text && g.html == m.html
    ensures g.views == (match m.views { case Some(views) => views case None => 0 })
  {
    assert m in g.originals && g.originals[0] == m;
    assert Silent(m) ==> g.text == m.text && g.html == m.html;
  }

  lemma OnlyOnce(messages: seq<Message>, i: nat)
    requires i < |messages| && forall j :: 0 <= j < |messages| && j != i ==> messages[j] != messages[i]
    ensures multiset(messages)[messages[i]] == 1
  {
    var m := messages[i];
    assert messages == messages[..i] + [m] + messages[i + 1..];
    assert m !in messages[..i] && m !in messages[i + 1..];
  }

  lemma {:induction false} AllTheSame(messages: seq<Message>, m: Message)
    requires forall i :: 0 <= i < |messages| ==> messages[i] == m
    ensures multiset(messages)[m] == |messages|
  {
    if messages != [] {
      assert messages == [m] + messages[1..];
      AllTheSame(messages[1..], m);
    }
  }

  // ---------- The loop ----------

  /** `_ParsedMessage`, updated in place. */
  class ParsedMessage {
    var id: int
    var views: nat
    var text: Option<string>
    var html: Option<string>
    var createdAt: int
    var originals: seq<Message>

    constructor (m: Message)
      requires m.date.Some?
      ensures Value() == ToParsed(m)
    {
      id, views, text, html, createdAt, originals := m.id, m.Views(), m.text, m.html, m.date.value, [m];
    }

    function Value(): Parsed
      reads this
    {
      Parsed(id, views, text, html, createdAt, originals)
    }

    method Add(m: Message)
      requires m.date.Some?
      modifies this
      ensures Value() == Absorb(old(Value()), m)
    {
      if m.HasText() && !(text.Some? && text.value != "") {
        text := m.text;
        html := m.html;
      }
      if m.Views() != 0 && views == 0 {
        views := m.Views();
      }
      if m.id < id {
        id := m.id;
        createdAt := m.date.value;
      }
      originals := originals + [m];
    }
  }

  function Values(r: seq<ParsedMessage>): (values: seq<Parsed>)
    reads r
    ensures |values| == |r| && forall i :: 0 <= i < |r| ==> values[i] == r[i].Value()
  {
    seq(|r|, i requires 0 <= i < |r| reads r => r[i].Value())
  }

  /** The dictionary after the messages seen so far: a record for every key. */
  ghost predicate Tabled(keys: seq<int>, table: map<int, Parsed>, seen: seq<Message>) {
    && AllDated(seen) && keys == Keys(seen) && (forall k :: k in table <==> k in keys)
    && forall k :: k in table ==> table[k] == GroupAt(seen, k)
  }

  function AddTo(table: map<int, Parsed>, m: Message): map<int, Parsed>
    requires m.date.Some?
  {
    table[m.Key() := if m.Key() in table then Absorb(table[m.Key()], m) else ToParsed(m)]
  }

  lemma TableStart()
    ensures Tabled([], map[], Dated([]))
  {
  }

  lemma TableIsGroups(keys: seq<int>, table: map<int, Parsed>, seen: seq<Message>)
    requires Tabled(keys, table, seen)
    ensures |keys| == |Groups(seen)|
    ensures forall i :: 0 <= i < |keys| ==> keys[i] in table && table[keys[i]] == Groups(seen)[i]
    ensures forall i, j :: 0 <= i < j < |keys| ==> keys[i] != keys[j]
  {
  }

  lemma OtherGroupKept(seen: seq<Message>, m: Message, k: int)
    requires AllDated(seen) && m.date.Some? && k in Keys(seen) && k != m.Key()
    ensures k in Keys(seen + [m]) && GroupAt(seen + [m], k) == GroupAt(seen, k)
  {
    hide Group, Keys;
    KeysAppended(seen, m);
    FilterAppended(seen, m, HasKey(k));
    assert Members(seen + [m], k) == Members(seen, k);
  }

  lemma OwnGroupGrows(seen: seq<Message>, m: Message)
    requires AllDated(seen) && m.date.Some?
    ensures var k := m.Key();
            && k in Keys(seen + [m])
            && GroupAt(seen + [m], k) == if k in Keys(seen) then Absorb(GroupAt(seen, k), m) else ToParsed(m)
  {
    var k := m.Key();
    KeysAppended(seen, m);
    FilterAppended(seen, m, HasKey(k));
    KeyHasMembers(seen, k);
    if k in Keys(seen) {
      GroupAppended(Members(seen, k), m);
    } else {
      GroupOfOne(m);
    }
  }

  lemma TableStep(keys: seq<int>, table: map<int, Parsed>, seen: seq<Message>, m: Message)
    requires Tabled(keys, table, seen) && m.date.Some?
    ensures Tabled(if m.Key() in table then keys else keys + [m.Key()], AddTo(table, m), seen + [m])
  {
    hide Absorb, ToParsed, GroupAt, Keys, Members;
    KeysAppended(seen, m);
    OwnGroupGrows(seen, m);
    forall k | k in table && k != m.Key() ensures k in Keys(seen + [m]) && GroupAt(seen + [m], k) == table[k] {
      OtherGroupKept(seen, m, k);
    }
  }

  /** A dictionary of objects stands for a table of values; no object serves two keys. */
  ghost predicate Stands(grouped: map<int, ParsedMessage>, table: map<int, Parsed>)
    reads grouped.Values
  {
    && grouped.Keys == table.Keys
    && (forall k, l :: k in grouped && l in grouped && grouped[k] == grouped[l] ==> k == l)
    && forall k :: k in grouped ==> grouped[k].Value() == table[k]
  }

  method AddToGroups(keys: seq<int>, grouped: map<int, ParsedMessage>, m: Message, ghost table: map<int, Parsed>)
    returns (newKeys: seq<int>, newGrouped: map<int, ParsedMessage>)
    requires m.date.Some? && Stands(grouped, table)
    modifies grouped.Values
    ensures Stands(newGrouped, AddTo(table, m))
    ensures newKeys == if m.Key() in table then keys else keys + [m.Key()]
    ensures forall p :: p in newGrouped.Values ==> p in grouped.Values || fresh(p)
  {
    hide Absorb, ToParsed;
    var key := m.Key();
    if key !in grouped {
      var newMessage := new ParsedMessage(m);
      newKeys, newGrouped := keys + [key], grouped[key := newMessage];
    } else {
      assert grouped[key] in grouped.Values;
      grouped[key].Add(m);
      newKeys, newGrouped := keys, grouped;
    }
  }

  lemma DatedAppended(messages: seq<Message>, i: nat)
    requires i < |messages|
    ensures messages[i].date.Some? ==> Dated(messages[..i + 1]) == Dated(messages[..i]) + [messages[i]]
    ensures messages[i].date.None? ==> Dated(messages[..i + 1]) == Dated(messages[..i])
  {
    assert messages[..i + 1] == messages[..i] + [messages[i]];
    FilterAppended(messages[..i], messages[i], IsDated());
  }

  method CollectMessages(messages: seq<Message>, limit: int) returns (r: seq<ParsedMessage>)
    ensures |r| == |Groups(Recent(messages, limit))|
    ensures forall i :: 0 <= i < |r| ==> fresh(r[i]) && r[i].Value() == Groups(Recent(messages, limit))[i]
    ensures forall i, j :: 0 <= i < j < |r| ==> r[i] != r[j]
    ensures forall n :: BeforeTooOld(messages, limit, n) ==> Albums(messages[..n], Values(r))
  {
    hide GroupAt, Dated, Cut, Keys, AddTo, Tabled, Albums;
    TableStart();
    var keys: seq<int>, grouped: map<int, ParsedMessage> := [], map[];
    ghost var table: map<int, Parsed> := map[];
    var i := 0;
    while i < |messages|
      invariant 0 <= i <= Cut(messages, limit)
      invariant Tabled(keys, table, Dated(messages[..i])) && Stands(grouped, table)
      invariant forall p :: p in grouped.Values ==> fresh(p)
    {
      var m := messages[i];
      DatedAppended(messages, i);
      if m.date.None? {
        i := i + 1;
        continue;
      }
      if m.date.value < limit {
        break;
      }
      TableStep(keys, table, Dated(messages[..i]), m);
      keys, grouped := AddToGroups(keys, grouped, m, table);
      table := AddTo(table, m);
      i := i + 1;
    }
    assert i == Cut(messages, limit);
    TableIsGroups(keys, table, Recent(messages, limit));
    r := seq(|keys|, k requires 0 <= k < |keys| && keys[k] in grouped => grouped[keys[k]]);
    forall k | 0 <= k < |r| ensures fresh(r[k]) && r[k].Value() == Groups(Recent(messages, limit))[k] {
      var key := keys[k];
      assert key in grouped && grouped[key] in grouped.Values;
      assert grouped[key].Value() == table[key];
      assert r[k] == grouped[key];
    }
    assert Values(r) == Groups(Recent(messages, limit));
    forall n | BeforeTooOld(messages, limit, n) ensures Albums(messages[..n], Values(r)) {
      CutIs(messages, limit, n);
      GroupsAreAlbums(messages[..n]);
    }
  }

  /** Messages with ids of their own make groups with ids of their own. */
  lemma GroupIdsDistinct(messages: seq<Message>, i: nat, j: nat)
    requires AllDated(messages) && forall a, b :: 0 <= a < b < |messages| ==> messages[a].id != messages[b].id
    requires i < j < |Groups(messages)|
    ensures Groups(messages)[i].id != Groups(messages)[j].id
  {
    var keys := Keys(messages);
    KeyHasMembers(messages, keys[i]);
    KeyHasMembers(messages, keys[j]);
    GroupMeaning(Members(messages, keys[i]));
    GroupMeaning(Members(messages, keys[j]));
    var x :| x in Members(messages, keys[i]) && Groups(messages)[i].id == x.id;
    var y :| y in Members(messages, keys[j]) && Groups(messages)[j].id == y.id;
    assert x.Key() != y.Key();
    var a :| 0 <= a < |messages| && messages[a] == x;
    var b :| 0 <= b < |messages| && messages[b] == y;
  }

  /** Groups come in the order of their first message. */
  lemma {:induction false} KeysInFirstSeenOrder(messages: seq<Message>, i: nat, j: nat)
    requires i < j < |Keys(messages)|
    ensures First(messages, HasKey(Keys(messages)[i])) < First(messages, HasKey(Keys(messages)[j])) < |messages|
  {
    var n := |messages| - 1;
    var front, m := messages[..n], messages[n];
    assert messages == front + [m];
    KeysAppended(front, m);
    FirstAppended(front, m, HasKey(Keys(messages)[i]));
    FirstAppended(front, m, HasKey(Keys(messages)[j]));
    if j < |Keys(front)| {
      KeysInFirstSeenOrder(front, i, j);
    } else {
      var k := Keys(front)[i];
      assert k in Keys(front);
      KeyHasMembers(front, k);
      assert Members(front, k)[0] in Members(front, k);
      assert m.Key() !in Keys(front);
      forall x | x in front ensures x.Key() != m.Key() {
      }
    }
  }
}
