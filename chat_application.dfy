/**
 * The list and string logic of the agent's chat screen
 * (frontend/chatbox/app/_component/ChatApplication.tsx): merging the users the
 * API returns into the local list, avatar initials, the search filter, sending
 * a message, and the "last seen" label.
 */
module ChatApplication {
  import opened Wrappers
  import opened Sequences
  import opened JsString

  /** The fields of a user record as the users API returns it. */
  datatype Profile = Profile(
    id: string,
    fullName: string,
    email: string,
    contact: string,
    isActive: bool,
    lastSeen: string,
    createdAt: string,
    socketId: Option<string>)

  /** A user of the local list: the API fields plus chat-specific ones. */
  datatype User = User(profile: Profile, unreadCount: int, lastMessage: string, avatar: string)

  // ---------------------------------------------------------------------------
  // getInitials

  /** `words.map(word => word[0]).join('')`: an empty word's `word[0]` is `undefined` and adds nothing. */
  function Heads(words: seq<string>): string
    decreases |words|
  {
    if words == [] then ""
    else (if words[0] == "" then "" else [words[0][0]]) + Heads(words[1..])
  }

  /** `fullName.split(' ').map(w => w[0]).join('').toUpperCase().slice(0, 2)` */
  function GetInitials(fullName: string): string {
    var all := ToUpper(Heads(Split(fullName)));
    if |all| <= 2 then all else all[..2]
  }

  /**
   * Reference definition: the characters that start a word, that is, that are
   * not a space and come first or right after a space.
   */
  function WordStarts(s: string, afterSpace: bool): string
    decreases |s|
  {
    if s == [] then ""
    else if s[0] == ' ' then WordStarts(s[1..], true)
    else (if afterSpace then [s[0]] else "") + WordStarts(s[1..], false)
  }

  lemma {:induction false} HeadsOfSplit(s: string)
    ensures Heads(Split(s)) == WordStarts(s, true)
    ensures Heads(Split(s)[1..]) == WordStarts(s, false)
    decreases |s|
  {
    if s != [] {
      HeadsOfSplit(s[1..]);
      var rest := Split(s[1..]);
      if s[0] == ' ' {
        assert Split(s) == [""] + rest;
        assert Split(s)[1..] == rest;
      } else {
        var words := Split(s);
        assert words == [[s[0]] + rest[0]] + rest[1..];
        assert words[1..] == rest[1..];
      }
    }
  }

  /** Position `i` of `s` starts a word: not a space, first (after a space) or right after a space. */
  predicate StartsWord(s: string, afterSpace: bool, i: int) {
    0 <= i < |s| && s[i] != ' ' && (if i == 0 then afterSpace else s[i - 1] == ' ')
  }

  /** Every character `WordStarts` collects sits at a position that starts a word. */
  lemma {:induction false} WordStartsAreStarts(s: string, afterSpace: bool, k: nat)
    requires k < |WordStarts(s, afterSpace)|
    ensures exists i :: StartsWord(s, afterSpace, i) && WordStarts(s, afterSpace)[k] == s[i]
    decreases |s|
  {
    if s[0] == ' ' {
      WordStartsAreStarts(s[1..], true, k);
      var i :| StartsWord(s[1..], true, i) && WordStarts(s[1..], true)[k] == s[1..][i];
      assert StartsWord(s, afterSpace, i + 1);
    } else if afterSpace && k == 0 {
      assert StartsWord(s, afterSpace, 0);
    } else {
      var k' := if afterSpace then k - 1 else k;
      assert WordStarts(s, afterSpace)[k] == WordStarts(s[1..], false)[k'];
      WordStartsAreStarts(s[1..], false, k');
      var i :| StartsWord(s[1..], false, i) && WordStarts(s[1..], false)[k'] == s[1..][i];
      assert StartsWord(s, afterSpace, i + 1);
    }
  }

  /**
   * The initials are the first two word starts, upper-cased: at most two
   * characters, and an empty word (from repeated spaces) contributes nothing.
   */
  lemma {:induction false} InitialsAreWordStarts(fullName: string)
    ensures var starts := WordStarts(fullName, true);
      && |GetInitials(fullName)| == (if |starts| < 2 then |starts| else 2)
      && forall k :: 0 <= k < |GetInitials(fullName)| ==> GetInitials(fullName)[k] == UpperChar(starts[k])
  {
    HeadsOfSplit(fullName);
  }

  // ---------------------------------------------------------------------------
  // mergeUsers

  /** `new Map(prevUsers.map(u => [u._id, u])).get(id)`: the LAST previous user with that id. */
  function Existing(prev: seq<User>, id: string): (r: Option<User>)
    ensures r.Some? ==> r.value in prev && r.value.profile.id == id
    ensures r.None? <==> forall u :: u in prev ==> u.profile.id != id
    ensures r.Some? ==> exists i :: (0 <= i < |prev| && prev[i] == r.value
      && forall j :: i < j < |prev| ==> prev[j].profile.id != id)
    decreases |prev|
  {
    if prev == [] then None
    else if prev[|prev| - 1].profile.id == id then Some(prev[|prev| - 1])
    else
      var r := Existing(prev[..|prev| - 1], id);
      assert prev == prev[..|prev| - 1] + [prev[|prev| - 1]];
      assert forall i :: 0 <= i < |prev| - 1 ==> prev[..|prev| - 1][i] == prev[i];
      r
  }

  /** One element of `apiUsers.map(...)`: API fields, chat fields kept or defaulted. */
  function MergeOne(prev: seq<User>, apiUser: Profile): User {
    match Existing(prev, apiUser.id)
    case Some(known) =>
      // `unreadCount || 0` and `lastMessage || ""` give the known value back
      User(apiUser, known.unreadCount, known.lastMessage,
           if known.avatar != "" then known.avatar else GetInitials(apiUser.fullName))
    case None =>
      User(apiUser, 0, "", GetInitials(apiUser.fullName))
  }

  /** `apiUsers.some(a => a._id === id)` */
  predicate InApi(apiUsers: seq<Profile>, id: string) {
    exists i :: 0 <= i < |apiUsers| && apiUsers[i].id == id
  }

  /** `prevUsers.filter(u => !apiUsers.some(...))` */
  function NotInApi(prev: seq<User>, apiUsers: seq<Profile>): seq<User> {
    Filter(prev, (u: User) => !InApi(apiUsers, u.profile.id))
  }

  /** `mergeUsers`: the merged API users in API order, then the local users the API did not return. */
  function MergeUsers(prev: seq<User>, apiUsers: seq<Profile>): seq<User> {
    seq(|apiUsers|, i requires 0 <= i < |apiUsers| => MergeOne(prev, apiUsers[i]))
    + NotInApi(prev, apiUsers)
  }

  /**
   * The merged list is the API users in API order followed by exactly the
   * previous users whose ids the API did not return, in their previous order.
   */
  lemma MergeUsersOrder(prev: seq<User>, apiUsers: seq<Profile>)
    ensures var r := MergeUsers(prev, apiUsers);
      && |r| >= |apiUsers|
      && (forall i :: 0 <= i < |apiUsers| ==> r[i].profile == apiUsers[i])
      && Subsequence(r[|apiUsers|..], prev)
      && (forall u :: u in r[|apiUsers|..] <==> u in prev && !InApi(apiUsers, u.profile.id))
      && (forall u :: (multiset(r[|apiUsers|..])[u] ==
            if InApi(apiUsers, u.profile.id) then 0 else multiset(prev)[u]))
  {
    var r := MergeUsers(prev, apiUsers);
    FilterSpec(prev, (u: User) => !InApi(apiUsers, u.profile.id));
    assert r[|apiUsers|..] == NotInApi(prev, apiUsers);
  }

  /** No id held before a merge is lost by it. */
  lemma MergeKeepsIds(prev: seq<User>, apiUsers: seq<Profile>, u: User)
    requires u in prev
    ensures exists v :: v in MergeUsers(prev, apiUsers) && v.profile.id == u.profile.id
  {
    var r := MergeUsers(prev, apiUsers);
    FilterSpec(prev, (u: User) => !InApi(apiUsers, u.profile.id));
    if InApi(apiUsers, u.profile.id) {
      var i :| 0 <= i < |apiUsers| && apiUsers[i].id == u.profile.id;
      assert r[i].profile == apiUsers[i];
    } else {
      assert u in NotInApi(prev, apiUsers);
      assert r[|apiUsers|..] == NotInApi(prev, apiUsers);
      assert u in r[|apiUsers|..];
    }
  }

  /**
   * A user already known locally keeps its unread count and last message and
   * its avatar unless that was empty; a new user starts with no unread
   * messages, no last message and its initials as avatar.
   */
  lemma MergeChatFields(prev: seq<User>, apiUsers: seq<Profile>, i: nat)
    requires i < |apiUsers|
    ensures var v := MergeUsers(prev, apiUsers)[i];
      && v.profile == apiUsers[i]
      && ((exists u :: u in prev && u.profile.id == apiUsers[i].id) ==>
            var known := Existing(prev, apiUsers[i].id).value;
            && known in prev
            && v.unreadCount == known.unreadCount
            && v.lastMessage == known.lastMessage
            && v.avatar == (if known.avatar != "" then known.avatar else GetInitials(apiUsers[i].fullName)))
      && ((forall u :: u in prev ==> u.profile.id != apiUsers[i].id) ==>
            v.unreadCount == 0 && v.lastMessage == "" && v.avatar == GetInitials(apiUsers[i].fullName))
  {
  }

  // ---------------------------------------------------------------------------
  // filteredUsers

  /** The search test: the lower-cased query occurs in the lower-cased name or e-mail. */
  predicate MatchesQuery(u: User, query: string) {
    Includes(ToLower(u.profile.fullName), ToLower(query)) || Includes(ToLower(u.profile.email), ToLower(query))
  }

  function FilteredUsers(users: seq<User>, query: string): seq<User> {
    Filter(users, (u: User) => MatchesQuery(u, query))
  }

  /**
   * The filtered list keeps, in order, exactly the users whose name or e-mail
   * contains the query, each as often as it occurs in `users`.
   */
  lemma FilteredUsersSpec(users: seq<User>, query: string)
    ensures Subsequence(FilteredUsers(users, query), users)
    ensures forall u :: u in FilteredUsers(users, query) <==> u in users && MatchesQuery(u, query)
    ensures forall u :: (multiset(FilteredUsers(users, query))[u] ==
      if MatchesQuery(u, query) then multiset(users)[u] else 0)
  {
    FilterSpec(users, (u: User) => MatchesQuery(u, query));
  }

  /** An empty search keeps every user. */
  lemma EmptyQueryKeepsAll(users: seq<User>)
    ensures FilteredUsers(users, "") == users
  {
    forall i | 0 <= i < |users| ensures MatchesQuery(users[i], "") {
      assert ToLower("") == "";
      assert "" <= ToLower(users[i].profile.fullName);
    }
    FilterKeepsAll(users, (u: User) => MatchesQuery(u, ""));
  }

  // ---------------------------------------------------------------------------
  // handleSendMessage

  datatype Sender = FromUser | FromAgent
  datatype Status = Sent | Delivered | Read

  datatype Message = Message(id: int, text: string, sender: Sender, time: string, status: Status)

  /** The component state `handleSendMessage` reads and writes. */
  datatype ChatState = ChatState(
    messages: map<string, seq<Message>>,
    messageInput: string,
    selectedUser: Option<User>)

  /**
   * `handleSendMessage`. The clock is a parameter: `now` stands for
   * `Date.now()` and `time` for the formatted local time.
   */
  function HandleSendMessage(st: ChatState, now: int, time: string): (r: ChatState)
    ensures (forall k :: 0 <= k < |st.messageInput| ==> IsWhitespace(st.messageInput[k])) ==> r == st
    ensures st.selectedUser.None? ==> r == st
    ensures (exists k :: 0 <= k < |st.messageInput| && !IsWhitespace(st.messageInput[k])) && st.selectedUser.Some? ==>
      var id := st.selectedUser.value.profile.id;
      var before := if id in st.messages then st.messages[id] else [];
      && r.messages.Keys == st.messages.Keys + {id}
      && r.messages[id] == before + [Message(now, st.messageInput, FromAgent, time, Sent)]
      && (forall other :: other in st.messages && other != id ==> r.messages[other] == st.messages[other])
      && r.messageInput == ""
      && r.selectedUser == st.selectedUser
  {
    TrimEmptyIff(st.messageInput);
    if Trim(st.messageInput) != "" && st.selectedUser.Some? then
      var id := st.selectedUser.value.profile.id;
      var before := if id in st.messages then st.messages[id] else [];
      st.(messages := st.messages[id := before + [Message(now, st.messageInput, FromAgent, time, Sent)]],
          messageInput := "")
    else st
  }

  // ---------------------------------------------------------------------------
  // formatLastSeen

  /** The label buckets; the date text itself is locale formatting and comes from outside. */
  datatype LastSeen = JustNow | MinutesAgo(minutes: nat) | HoursAgo(hours: nat) | OnDate

  /**
   * `formatLastSeen` on the elapsed time `diff` in milliseconds
   * (`Math.floor` is Dafny's `/` for a positive divisor).
   */
  function FormatLastSeen(diff: int): (r: LastSeen)
    ensures r == JustNow <==> diff < 60000
    ensures r.MinutesAgo? <==> 60000 <= diff < 3600000
    ensures r.MinutesAgo? ==> 1 <= r.minutes < 60 && r.minutes * 60000 <= diff < (r.minutes + 1) * 60000
    ensures r.HoursAgo? <==> 3600000 <= diff < 86400000
    ensures r.HoursAgo? ==> 1 <= r.hours < 24 && r.hours * 3600000 <= diff < (r.hours + 1) * 3600000
    ensures r == OnDate <==> diff >= 86400000
  {
    var minutes := diff / 60000;
    var hours := minutes / 60;
    if minutes < 1 then JustNow
    else if minutes < 60 then MinutesAgo(minutes)
    else if hours < 24 then HoursAgo(hours)
    else OnDate
  }

  /** The text shown: `${minutes}m ago`, `${hours}h ago`, or the locale date text. */
  function LastSeenText(r: LastSeen, dateText: string): string {
    match r
    case JustNow => "Just now"
    case MinutesAgo(m) => NatToString(m) + "m ago"
    case HoursAgo(h) => NatToString(h) + "h ago"
    case OnDate => dateText
  }

  /** The number in a "minutes ago" label reads back as the whole minutes elapsed. */
  lemma MinutesLabelReadsBack(diff: int, dateText: string)
    requires 60000 <= diff < 3600000
    ensures var text := LastSeenText(FormatLastSeen(diff), dateText);
      var digits := text[..|text| - 5];
      && text[|text| - 5..] == "m ago"
      && (forall k :: 0 <= k < |digits| ==> '0' <= digits[k] <= '9')
      && ParseDigits(digits) == diff / 60000
  {
    var m := diff / 60000;
    ParseNatToString(m);
    var text := LastSeenText(FormatLastSeen(diff), dateText);
    assert text == NatToString(m) + "m ago";
    assert text[..|text| - 5] == NatToString(m);
  }

  /** The number in an "hours ago" label reads back as the whole hours elapsed. */
  lemma HoursLabelReadsBack(diff: int, dateText: string)
    requires 3600000 <= diff < 86400000
    ensures var text := LastSeenText(FormatLastSeen(diff), dateText);
      var digits := text[..|text| - 5];
      && text[|text| - 5..] == "h ago"
      && (forall k :: 0 <= k < |digits| ==> '0' <= digits[k] <= '9')
      && ParseDigits(digits) * 3600000 <= diff < (ParseDigits(digits) + 1) * 3600000
  {
    var h := FormatLastSeen(diff).hours;
    ParseNatToString(h);
    var text := LastSeenText(FormatLastSeen(diff), dateText);
    assert text == NatToString(h) + "h ago";
    assert text[..|text| - 5] == NatToString(h);
  }
}
