/** The discussion feed: emoji reactions toggled per user, the send guard for
    new messages, and the relative time shown next to each message. */
module Discussion {
  import opened Types
  import opened Seqs
  import opened Text

  /** The users listed under `emoji`; an emoji nobody has used lists no one. */
  function Reactors(r: Reactions, emoji: string): seq<UserId> {
    if emoji in r then r[emoji] else []
  }

  /** A message's reactions; a message without the column has none. */
  function ReactionsOf(m: Message): Reactions {
    m.reactions.GetOr(map[])
  }

  /** Clicking `emoji` as user `uid`: a user already listed is removed
      (every copy), otherwise appended once. The emoji's key stays in the map
      even when its list becomes empty; every other emoji is untouched. */
  function Toggle(r: Reactions, emoji: string, uid: UserId): (r': Reactions)
    ensures r'.Keys == r.Keys + {emoji}
    ensures forall k :: k in r && k != emoji ==> r'[k] == r[k]
    ensures uid !in Reactors(r, emoji) ==> r'[emoji] == Reactors(r, emoji) + [uid]
    ensures uid in Reactors(r, emoji) ==> uid !in r'[emoji] && SubseqOf(r'[emoji], Reactors(r, emoji))
    ensures uid in Reactors(r, emoji) ==> multiset(r'[emoji]) == multiset(Reactors(r, emoji))[uid := 0]
    ensures forall x :: x != uid ==> (x in r'[emoji] <==> x in Reactors(r, emoji))
    ensures uid in r'[emoji] <==> uid !in Reactors(r, emoji)
  {
    var current := Reactors(r, emoji);
    if uid in current then r[emoji := Without(current, uid)] else r[emoji := current + [uid]]
  }

  /** Reacting and then un-reacting restores the emoji's list, and restores the
      whole map when the emoji was already a key. */
  lemma ToggleTwice(r: Reactions, emoji: string, uid: UserId)
    requires uid !in Reactors(r, emoji)
    ensures Reactors(Toggle(Toggle(r, emoji, uid), emoji, uid), emoji) == Reactors(r, emoji)
    ensures emoji in r ==> Toggle(Toggle(r, emoji, uid), emoji, uid) == r
  {
    WithoutAppended(Reactors(r, emoji), uid);
    var r2 := Toggle(Toggle(r, emoji, uid), emoji, uid);
    if emoji in r {
      assert r2.Keys == r.Keys;
    }
  }

  /** `m` sits at index `i` and no earlier message has id `id`. */
  predicate FoundAt(messages: seq<Message>, id: string, m: Message, i: int) {
    0 <= i < |messages| && messages[i] == m && forall j :: 0 <= j < i ==> messages[j].id != id
  }

  /** The first message with id `id`, as `Array.prototype.find` returns it. */
  function Find(messages: seq<Message>, id: string): (m: Option<Message>)
    ensures m.None? <==> forall i :: 0 <= i < |messages| ==> messages[i].id != id
    ensures m.Some? ==> m.value.id == id
    ensures m.Some? ==> exists i :: FoundAt(messages, id, m.value, i)
  {
    if |messages| == 0 then None
    else if messages[0].id == id then
      assert FoundAt(messages, id, messages[0], 0);
      Some(messages[0])
    else
      var m := Find(messages[1..], id);
      if m.Some? then
        var i :| FoundAt(messages[1..], id, m.value, i);
        assert forall j :: 1 <= j < i + 1 ==> messages[j] == messages[1..][j - 1];
        assert FoundAt(messages, id, m.value, i + 1);
        m
      else
        assert forall j :: 1 <= j < |messages| ==> messages[j] == messages[1..][j - 1];
        m
  }

  /** The reactions column written back for one message. */
  datatype ReactionUpdate = ReactionUpdate(messageId: string, reactions: Reactions)

  /** A reaction click: nothing is written without a signed-in user or for a
      message id not in the feed; otherwise the found message's reactions,
      toggled for that user. */
  function HandleReaction(messages: seq<Message>, user: Option<UserId>, messageId: string, emoji: string)
    : (u: Option<ReactionUpdate>)
    ensures u.None? <==> user.None? || Find(messages, messageId).None?
    ensures u.Some? ==> u.value.messageId == messageId
    ensures u.Some? ==> u.value.reactions == Toggle(ReactionsOf(Find(messages, messageId).value), emoji, user.value)
  {
    match user
    case None => None
    case Some(uid) =>
      match Find(messages, messageId)
      case None => None
      case Some(m) => Some(ReactionUpdate(messageId, Toggle(ReactionsOf(m), emoji, uid)))
  }

  /** The stored update: every message with that id gets the new reactions. */
  function ApplyUpdate(messages: seq<Message>, u: ReactionUpdate): (r: seq<Message>)
    ensures |r| == |messages|
    ensures forall i :: 0 <= i < |r| && messages[i].id != u.messageId ==> r[i] == messages[i]
    ensures forall i :: 0 <= i < |r| && messages[i].id == u.messageId ==>
      r[i] == messages[i].(reactions := Some(u.reactions))
  {
    seq(|messages|, i requires 0 <= i < |messages| =>
      if messages[i].id == u.messageId then messages[i].(reactions := Some(u.reactions)) else messages[i])
  }

  /** The feed after a reaction click. */
  function React(messages: seq<Message>, user: Option<UserId>, messageId: string, emoji: string)
    : (r: seq<Message>)
    ensures user.None? ==> r == messages
    ensures (forall i :: 0 <= i < |messages| ==> messages[i].id != messageId) ==> r == messages
    ensures |r| == |messages|
    ensures forall i :: 0 <= i < |r| && messages[i].id != messageId ==> r[i] == messages[i]
  {
    match HandleReaction(messages, user, messageId, emoji)
    case None => messages
    case Some(u) => ApplyUpdate(messages, u)
  }

  /** Clicking an emoji flips whether the clicking user is listed under it in
      the clicked message, and leaves every other emoji's list as it was. */
  lemma ReactFlips(messages: seq<Message>, uid: UserId, k: nat, emoji: string, other: string)
    requires k < |messages| && forall j :: 0 <= j < k ==> messages[j].id != messages[k].id
    requires other != emoji
    ensures var after := React(messages, Some(uid), messages[k].id, emoji)[k];
      && (uid in Reactors(ReactionsOf(after), emoji) <==> uid !in Reactors(ReactionsOf(messages[k]), emoji))
      && Reactors(ReactionsOf(after), other) == Reactors(ReactionsOf(messages[k]), other)
  {
    var m := Find(messages, messages[k].id);
    var i :| FoundAt(messages, messages[k].id, m.value, i);
    assert i == k;
  }

  /** The count shown beside an emoji: how many users are listed, 0 when none. */
  function ReactionCount(m: Message, emoji: string): (n: nat)
    ensures m.reactions.None? ==> n == 0
    ensures m.reactions.Some? && emoji !in m.reactions.value ==> n == 0
    ensures m.reactions.Some? && emoji in m.reactions.value ==> n == |m.reactions.value[emoji]|
  {
    |Reactors(ReactionsOf(m), emoji)|
  }

  /** Whether the emoji is highlighted: the signed-in user is listed under it
      (with nobody signed in, the empty id is looked up). */
  predicate HasReacted(m: Message, emoji: string, user: Option<UserId>) {
    user.GetOr("") in Reactors(ReactionsOf(m), emoji)
  }

  /** After a click by `uid` the clicked emoji is highlighted for `uid`
      exactly when it was not before; the other emojis keep their highlight. */
  lemma ClickFlipsHighlight(messages: seq<Message>, uid: UserId, k: nat, emoji: string, other: string)
    requires k < |messages| && forall j :: 0 <= j < k ==> messages[j].id != messages[k].id
    requires other != emoji
    ensures var after := React(messages, Some(uid), messages[k].id, emoji)[k];
      && (HasReacted(after, emoji, Some(uid)) <==> !HasReacted(messages[k], emoji, Some(uid)))
      && (HasReacted(after, other, Some(uid)) <==> HasReacted(messages[k], other, Some(uid)))
  {
    ReactFlips(messages, uid, k, emoji, other);
  }

  /** A message about to be inserted. */
  datatype NewMessage = NewMessage(userId: UserId, content: string, kind: MessageKind)

  /** The send button: blank input or no signed-in user sends nothing;
      otherwise the trimmed text is sent as a text message by that user. */
  function Compose(input: string, user: Option<UserId>): (m: Option<NewMessage>)
    ensures m.None? <==> IsBlank(input) || user.None?
    ensures m.Some? ==> m.value.userId == user.value && m.value.kind == TextMessage
    ensures m.Some? ==> m.value.content == Trim(input) && |m.value.content| > 0
    ensures m.Some? ==> !IsSpace(m.value.content[0]) && !IsSpace(m.value.content[|m.value.content| - 1])
  {
    if IsBlank(input) || user.None? then None
    else Some(NewMessage(user.value, Trim(input), TextMessage))
  }

  /** A sent message's content needs no further trimming. */
  lemma SentContentIsTrimmed(input: string, user: Option<UserId>)
    requires Compose(input, user).Some?
    ensures Trim(Compose(input, user).value.content) == Compose(input, user).value.content
  {
    TrimIdempotent(input);
  }

  /** The relative time next to a message. */
  datatype TimeLabel = JustNow | MinutesAgo(minutes: int) | HoursAgo(hours: int) | OnDate(stamp: Millis)

  /** Whole minutes from `stamp` to `now`, rounded down (so negative for a
      stamp in the future). */
  function MinutesBetween(stamp: Millis, now: Millis): (n: int)
    ensures n * MillisPerMinute <= now - stamp < (n + 1) * MillisPerMinute
  {
    (now - stamp) / MillisPerMinute
  }

  /** Under a minute (a future stamp included) is "just now", under an hour
      counts minutes, under a day counts whole hours; older messages show
      their date. */
  function FormatMessageTime(stamp: Millis, now: Millis): (l: TimeLabel)
    ensures l == JustNow <==> now - stamp < MillisPerMinute
    ensures l.MinutesAgo? <==> MillisPerMinute <= now - stamp < MillisPerHour
    ensures l.MinutesAgo? ==> 1 <= l.minutes < 60
    ensures l.MinutesAgo? ==> l.minutes * MillisPerMinute <= now - stamp < (l.minutes + 1) * MillisPerMinute
    ensures l.HoursAgo? <==> MillisPerHour <= now - stamp < MillisPerDay
    ensures l.HoursAgo? ==> 1 <= l.hours <= 23
    ensures l.HoursAgo? ==> l.hours * MillisPerHour <= now - stamp < (l.hours + 1) * MillisPerHour
    ensures l.OnDate? <==> MillisPerDay <= now - stamp
  {
    var minutes := MinutesBetween(stamp, now);
    if minutes < 1 then JustNow
    else if minutes < 60 then MinutesAgo(minutes)
    else if minutes < 1440 then
      var hours := minutes / 60;
      assert hours * 60 <= minutes < (hours + 1) * 60;
      HoursAgo(hours)
    else OnDate(stamp)
  }
}
