/**
 * The conversation (okru_post_bot.py, the handlers `start`, `select_profile`,
 * `sms_code_handler`, `groups_handler`, `post_handler`, `cancel` and the
 * `ConversationHandler` that dispatches to them), as one pure step:
 * (state, stored data, update, what the browser reported) to
 * (next state, stored data, replies, what was sent to the browser).
 */
module Conversation {
  import opened Wrappers
  import opened Text
  import opened Profiles
  import opened Commands
  import opened Pages

  /** The conversation states; `Idle` is `ConversationHandler.END`: no conversation in progress. */
  datatype Phase = Idle | SelectProfile | SmsCode | Groups | PostInfo {
    /** The states whose handler reads a text message; the login is behind them. */
    predicate AwaitsMessage() {
      SmsCode? || Groups? || PostInfo?
    }
  }

  /** An `OKSession`: the profile it logs in as, and whether `close()` has been called on it. */
  datatype Session = Session(profile: Profile, closed: bool)

  /** `context.user_data`: the two keys the handlers write, absent until first written. */
  datatype UserData = UserData(session: Option<Session>, groups: Option<seq<string>>)

  /** One user's conversation state and stored data. */
  datatype Chat = Chat(phase: Phase, data: UserData)

  const Initial: Chat := Chat(Idle, UserData(None, None))

  /**
   * An update from Telegram: a bot command (`/start`, `/cancel`, ...), a
   * press of an inline button carrying the integer its callback data
   * denotes (None when `int()` rejects it), or a text message.
   */
  datatype Update = Command(name: string) | Button(index: Option<int>) | Message(text: string)

  /** What `login` found: a `WebDriverException`, or the page it checked for the SMS prompt. */
  datatype LoginPage = LoginRaised | LoginPage(bodyText: string, hasSmsCodeElement: bool)

  /** What `submit_sms` found: an exception, or the body's `data-l` attribute. */
  datatype SmsPage = SmsRaised | SmsPage(dataL: Option<string>)

  /**
   * The browser's side of one update: the login page, the page after the
   * SMS code, and the index of the first group whose `post_to_group` raises.
   */
  datatype Browser = Browser(login: LoginPage, sms: SmsPage, failingPost: Option<nat>)

  /** One `post_to_group` call: the page it opens, the video link and the caption. */
  datatype Post = Post(pageUrl: string, videoUrl: string, caption: string)

  /** The replies and message edits sent to the operator. */
  datatype Reply =
    | ChooseProfile(persons: seq<string>)
    | AskSmsCode | LoggedIn
    | BadCodeFormat | SmsConfirmed | WrongCode
    | BadGroupsFormat | NoLinks | GroupsSaved
    | BadPostFormat | Publishing | Published
    | Cancelled

  /** The result of one update. */
  datatype Outcome = Outcome(chat: Chat, replies: seq<Reply>, submittedCode: Option<string>, posts: seq<Post>)

  /** The handler the `ConversationHandler` runs, with what it reads from the update. */
  datatype Handler =
    | Start
    | ChooseProfileHandler(index: Option<int>)
    | SmsCodeHandler(text: string)
    | GroupsHandler(text: string)
    | PostHandler(text: string)
    | CancelHandler

  /** The tag a text message must start with to reach the handler of `phase`. */
  function Tag(phase: Phase): string
    requires phase.AwaitsMessage()
  {
    match phase
    case SmsCode => SmsTag
    case Groups => GroupsTag
    case PostInfo => PostTag
  }

  /** The state in which the `ConversationHandler` lists `h`: the entry point, a state handler, or the fallback. */
  predicate HandlesIn(h: Handler, phase: Phase) {
    match h
    case Start => phase == Idle
    case ChooseProfileHandler(_) => phase == SelectProfile
    case SmsCodeHandler(_) => phase == SmsCode
    case GroupsHandler(_) => phase == Groups
    case PostHandler(_) => phase == PostInfo
    case CancelHandler => phase != Idle
  }

  /**
   * Dispatch: with no conversation only the entry point `/start` applies;
   * in a conversation the state's own handler is tried first, then the
   * `/cancel` fallback. Anything else is not handled.
   */
  function Dispatch(phase: Phase, u: Update): (h: Option<Handler>)
    ensures h.Some? ==> HandlesIn(h.value, phase)
    ensures h.Some? && h.value.CancelHandler? <==> phase != Idle && u == Command("cancel")
    ensures phase == Idle ==> (h.Some? <==> u == Command("start"))
    ensures phase == SelectProfile && u.Button? ==> h == Some(ChooseProfileHandler(u.index))
    ensures phase.AwaitsMessage() && u.Message? && Tag(phase) <= u.text ==>
              h.Some? && !h.value.CancelHandler? && h.value.text == u.text
    ensures h.Some? && h.value.ChooseProfileHandler? ==> u.Button?
    ensures h.Some? && (h.value.SmsCodeHandler? || h.value.GroupsHandler? || h.value.PostHandler?) ==>
              u.Message? && Tag(phase) <= u.text
    ensures h.Some? && (h.value.Start? || h.value.CancelHandler?) ==> u.Command?
  {
    if phase == Idle then
      if u == Command("start") then Some(Start) else None
    else if phase == SelectProfile && u.Button? then
      Some(ChooseProfileHandler(u.index))
    else if phase.AwaitsMessage() && u.Message? && Tag(phase) <= u.text then
      Some(match phase
           case SmsCode => SmsCodeHandler(u.text)
           case Groups => GroupsHandler(u.text)
           case PostInfo => PostHandler(u.text))
    else if u == Command("cancel") then
      Some(CancelHandler)
    else
      None
  }

  /**
   * Nothing happens: the update matched no handler, or the handler raised
   * before changing anything. The state is left as it was.
   */
  function Unchanged(c: Chat): Outcome {
    Outcome(c, [], None, [])
  }

  /** The button labels: each profile's person, in order. */
  function Persons(profiles: seq<Profile>): (ps: seq<string>)
    ensures |ps| == |profiles| && forall i :: 0 <= i < |ps| ==> ps[i] == profiles[i].person
  {
    seq(|profiles|, i requires 0 <= i < |profiles| => profiles[i].person)
  }

  /** `start`: offer one button per profile. */
  function StartStep(profiles: seq<Profile>, c: Chat): (r: Outcome)
    ensures r.chat.phase == SelectProfile && r.chat.data == c.data
    ensures |r.replies| == 1 && r.replies[0].ChooseProfile? && |r.replies[0].persons| == |profiles|
    ensures forall i :: 0 <= i < |profiles| ==> r.replies[0].persons[i] == profiles[i].person
    ensures r.submittedCode.None? && r.posts == []
  {
    Outcome(c.(phase := SelectProfile), [ChooseProfile(Persons(profiles))], None, [])
  }

  /** Python's `profiles[i]`: negative indices count from the end; None is an `IndexError`. */
  function ProfileByIndex(profiles: seq<Profile>, i: int): (p: Option<Profile>)
    ensures p.Some? <==> -|profiles| <= i < |profiles|
    ensures p.Some? ==> p.value in profiles
    ensures p.Some? ==> p.value == profiles[if i < 0 then i + |profiles| else i]
  {
    if 0 <= i < |profiles| then Some(profiles[i])
    else if -|profiles| <= i < 0 then Some(profiles[i + |profiles|])
    else None
  }

  /**
   * `select_profile`: store a new session for the chosen profile, then log
   * in; a login that raises closes the session and leaves the state as it was.
   */
  function ChooseProfileStep(profiles: seq<Profile>, c: Chat, index: Option<int>, login: LoginPage): (r: Outcome)
    ensures r.submittedCode.None? && r.posts == [] && r.chat.data.groups == c.data.groups
    ensures index.None? || ProfileByIndex(profiles, index.value).None? ==> r == Unchanged(c)
    ensures r.chat.phase != c.phase ==>
              && r.chat.phase in {SmsCode, Groups} && login.LoginPage?
              && r.chat.data.session == Some(Session(ProfileByIndex(profiles, index.value).value, false))
  {
    if index.None? then Unchanged(c)
    else
      match ProfileByIndex(profiles, index.value)
      case None => Unchanged(c)
      case Some(p) =>
        match login
        case LoginRaised => Unchanged(c.(data := c.data.(session := Some(Session(p, true)))))
        case LoginPage(body, hasElement) =>
          var data := c.data.(session := Some(Session(p, false)));
          if SmsNeeded(body, hasElement) then Outcome(Chat(SmsCode, data), [AskSmsCode], None, [])
          else Outcome(Chat(Groups, data), [LoggedIn], None, [])
  }

  /** `submit_sms`: every exception reads as a rejected code. */
  predicate SmsAccepted(sms: SmsPage)
    ensures SmsAccepted(sms) ==> sms.SmsPage? && sms.dataL.Some? && Contains(sms.dataL.value, "userMain")
  {
    match sms
    case SmsRaised => false
    case SmsPage(dataL) => SmsSucceeded(dataL)
  }

  /** `sms_code_handler`: parse the code, submit it, and move on only if it was accepted. */
  function SmsCodeStep(c: Chat, text: string, sms: SmsPage): (r: Outcome)
    ensures r.posts == []
    ensures r.submittedCode.Some? ==> 4 <= |r.submittedCode.value| <= 6 && All(r.submittedCode.value, IsDigit)
  {
    match ParseSmsCode(text)
    case None => Outcome(c, [BadCodeFormat], None, [])
    case Some(code) =>
      if c.data.session.None? then Unchanged(c)
      else if SmsAccepted(sms) then Outcome(c.(phase := Groups), [SmsConfirmed], Some(code), [])
      else Outcome(c, [WrongCode], Some(code), [])
  }

  /** `groups_handler`: store every link of the command, or ask again. */
  function GroupsStep(c: Chat, text: string): (r: Outcome)
    ensures r.submittedCode.None? && r.posts == []
  {
    match ParseGroups(text)
    case GroupsBadFormat => Outcome(c, [BadGroupsFormat], None, [])
    case GroupsNoLinks => Outcome(c, [NoLinks], None, [])
    case GroupsFound(links) => Outcome(Chat(PostInfo, c.data.(groups := Some(links))), [GroupsSaved], None, [])
  }

  /** One post per stored group, in the stored order. */
  function PostsFor(groups: seq<string>, cmd: PostCommand): (posts: seq<Post>)
    ensures |posts| == |groups|
    ensures forall i :: 0 <= i < |groups| ==>
              posts[i] == Post(PostUrl(groups[i]), cmd.videoUrl, cmd.caption)
  {
    seq(|groups|, i requires 0 <= i < |groups| => Post(PostUrl(groups[i]), cmd.videoUrl, cmd.caption))
  }

  /**
   * `post_handler`: post to every stored group in order; the first post that
   * raises ends the handler, with the earlier posts made and the state kept.
   */
  function PostStep(c: Chat, text: string, failingPost: Option<nat>): (r: Outcome)
    ensures r.submittedCode.None?
    ensures r.posts != [] ==> c.data.groups.Some? && |r.posts| <= |c.data.groups.value|
  {
    match ParsePost(text)
    case None => Outcome(c, [BadPostFormat], None, [])
    case Some(cmd) =>
      if c.data.session.None? || c.data.groups.None? then Unchanged(c)
      else
        var all := PostsFor(c.data.groups.value, cmd);
        if failingPost.Some? && failingPost.value < |all| then
          Outcome(c, [Publishing], None, all[..failingPost.value + 1])
        else
          var closed := c.data.session.value.(closed := true);
          Outcome(Chat(Idle, c.data.(session := Some(closed))), [Publishing, Published], None, all)
  }

  /** `cancel`: close the stored session, if any, and end the conversation. */
  function CancelStep(c: Chat): (r: Outcome)
    ensures r.chat.phase == Idle && r.chat.data.groups == c.data.groups && r.replies == [Cancelled]
    ensures r.chat.data.session.Some? <==> c.data.session.Some?
    ensures r.chat.data.session.Some? ==>
              r.chat.data.session.value.profile == c.data.session.value.profile && r.chat.data.session.value.closed
    ensures r.submittedCode.None? && r.posts == []
  {
    var session := if c.data.session.Some? then Some(c.data.session.value.(closed := true)) else None;
    Outcome(Chat(Idle, c.data.(session := session)), [Cancelled], None, [])
  }

  /** One update, dispatched and handled. */
  function Step(profiles: seq<Profile>, c: Chat, u: Update, b: Browser): (r: Outcome)
    ensures Dispatch(c.phase, u).None? ==> r == Unchanged(c)
    ensures r.submittedCode.Some? ==>
              c.phase == SmsCode && 4 <= |r.submittedCode.value| <= 6 && All(r.submittedCode.value, IsDigit)
    ensures r.posts != [] ==> c.phase == PostInfo && c.data.groups.Some? && |r.posts| <= |c.data.groups.value|
  {
    match Dispatch(c.phase, u)
    case None => Unchanged(c)
    case Some(h) => Apply(profiles, c, h, b)
  }

  /** Run handler `h` on the state, with what the browser reports. */
  function Apply(profiles: seq<Profile>, c: Chat, h: Handler, b: Browser): (r: Outcome)
    ensures r.submittedCode.Some? ==>
              h.SmsCodeHandler? && 4 <= |r.submittedCode.value| <= 6 && All(r.submittedCode.value, IsDigit)
    ensures r.posts != [] ==> h.PostHandler? && c.data.groups.Some? && |r.posts| <= |c.data.groups.value|
  {
    match h
    case Start => StartStep(profiles, c)
    case ChooseProfileHandler(index) => ChooseProfileStep(profiles, c, index, b.login)
    case SmsCodeHandler(text) => SmsCodeStep(c, text, b.sms)
    case GroupsHandler(text) => GroupsStep(c, text)
    case PostHandler(text) => PostStep(c, text, b.failingPost)
    case CancelHandler => CancelStep(c)
  }

  // ---------------------------------------------------------------------------
  // Invariant
  // ---------------------------------------------------------------------------

  /**
   * What holds of every reachable state: a stored session is for one of the
   * profiles and is open while the conversation is past the login; stored
   * groups are a non-empty list of group links, present in `PostInfo`.
   */
  ghost predicate Inv(profiles: seq<Profile>, c: Chat) {
    && (c.data.session.Some? ==> c.data.session.value.profile in profiles)
    && (c.phase.AwaitsMessage() ==> c.data.session.Some? && !c.data.session.value.closed)
    && (c.data.groups.Some? ==>
          c.data.groups.value != [] && forall i :: 0 <= i < |c.data.groups.value| ==> IsGroupLink(c.data.groups.value[i]))
    && (c.phase == PostInfo ==> c.data.groups.Some?)
  }

  lemma InitialInv(profiles: seq<Profile>)
    ensures Inv(profiles, Initial)
  {
  }

  lemma StepPreservesInv(profiles: seq<Profile>, c: Chat, u: Update, b: Browser)
    requires Inv(profiles, c)
    ensures Inv(profiles, Step(profiles, c, u, b).chat)
  {
    var h := Dispatch(c.phase, u);
    if h.Some? {
      ApplyKeepsInv(profiles, c, h.value, b);
    }
  }

  /** Every handler, run in a state that lists it, keeps the invariant. */
  lemma ApplyKeepsInv(profiles: seq<Profile>, c: Chat, h: Handler, b: Browser)
    requires Inv(profiles, c) && HandlesIn(h, c.phase)
    ensures Inv(profiles, Apply(profiles, c, h, b).chat)
  {
    match h
    case Start =>
    case ChooseProfileHandler(index) =>
      ChooseProfileKeepsInv(profiles, c, index, b.login);
    case SmsCodeHandler(text) =>
      SmsCodeKeepsInv(profiles, c, text, b.sms);
    case GroupsHandler(text) =>
      GroupsKeepsInv(profiles, c, text);
    case PostHandler(text) =>
      PostKeepsInv(profiles, c, text, b.failingPost);
    case CancelHandler =>
  }

  lemma ChooseProfileKeepsInv(profiles: seq<Profile>, c: Chat, index: Option<int>, login: LoginPage)
    requires Inv(profiles, c) && c.phase == SelectProfile
    ensures Inv(profiles, ChooseProfileStep(profiles, c, index, login).chat)
  {
  }

  lemma SmsCodeKeepsInv(profiles: seq<Profile>, c: Chat, text: string, sms: SmsPage)
    requires Inv(profiles, c) && c.phase == SmsCode
    ensures Inv(profiles, SmsCodeStep(c, text, sms).chat)
  {
  }

  lemma GroupsKeepsInv(profiles: seq<Profile>, c: Chat, text: string)
    requires Inv(profiles, c) && c.phase == Groups
    ensures Inv(profiles, GroupsStep(c, text).chat)
  {
  }

  lemma PostKeepsInv(profiles: seq<Profile>, c: Chat, text: string, failingPost: Option<nat>)
    requires Inv(profiles, c) && c.phase == PostInfo
    ensures Inv(profiles, PostStep(c, text, failingPost).chat)
  {
  }

  /** The outcome of a sequence of updates, each with what the browser reported for it. */
  function Run(profiles: seq<Profile>, c: Chat, updates: seq<(Update, Browser)>): Chat
    decreases |updates|
  {
    if updates == [] then c
    else Run(profiles, Step(profiles, c, updates[0].0, updates[0].1).chat, updates[1..])
  }

  /** Every state reachable from the initial one satisfies the invariant. */
  lemma {:induction false} RunPreservesInv(profiles: seq<Profile>, c: Chat, updates: seq<(Update, Browser)>)
    requires Inv(profiles, c)
    ensures Inv(profiles, Run(profiles, c, updates))
    decreases |updates|
  {
    if updates != [] {
      StepPreservesInv(profiles, c, updates[0].0, updates[0].1);
      RunPreservesInv(profiles, Step(profiles, c, updates[0].0, updates[0].1).chat, updates[1..]);
    }
  }

  // ---------------------------------------------------------------------------
  // Transitions
  // ---------------------------------------------------------------------------

  /** `/start` with no conversation in progress opens the profile choice. */
  lemma StartOpensSelection(profiles: seq<Profile>, c: Chat, b: Browser)
    requires c.phase == Idle
    ensures Step(profiles, c, Command("start"), b) ==
              Outcome(Chat(SelectProfile, c.data), [ChooseProfile(Persons(profiles))], None, [])
  {
  }

  /** A message that does not start with the current state's tag is not handled at all. */
  lemma UntaggedMessageIgnored(profiles: seq<Profile>, c: Chat, text: string, b: Browser)
    requires c.phase.AwaitsMessage() && !(Tag(c.phase) <= text)
    ensures Step(profiles, c, Message(text), b) == Unchanged(c)
  {
  }

  /** `/cancel` ends the conversation from every state, closing a stored session. */
  lemma CancelEnds(profiles: seq<Profile>, c: Chat, b: Browser)
    ensures Step(profiles, c, Command("cancel"), b).chat.phase == Idle
    ensures c.phase != Idle ==>
              Step(profiles, c, Command("cancel"), b) == CancelStep(c)
              && (c.data.session.Some? ==> Step(profiles, c, Command("cancel"), b).chat.data.session.value.closed)
  {
  }

  /**
   * Updates of the wrong kind are not handled: a text message while the
   * profile buttons are shown, and a button press while a tagged message is
   * awaited.
   */
  lemma WrongKindIgnored(profiles: seq<Profile>, c: Chat, u: Update, b: Browser)
    requires (c.phase == SelectProfile && u.Message?) || (c.phase.AwaitsMessage() && u.Button?)
    ensures Step(profiles, c, u, b) == Unchanged(c)
  {
  }

  /**
   * Choosing a profile stores a session for it and goes to `SmsCode` exactly
   * when the login page asks for an SMS code, to `Groups` when it does not,
   * and stays when the login raised.
   */
  lemma ChooseProfileTransitions(profiles: seq<Profile>, c: Chat, i: int, b: Browser)
    requires c.phase == SelectProfile && 0 <= i < |profiles|
    ensures var r := Step(profiles, c, Button(Some(i)), b);
      && r.chat.data.session.Some? && r.chat.data.session.value.profile == profiles[i]
      && r.chat.data.groups == c.data.groups
      && r.submittedCode.None? && r.posts == []
      && (r.chat.phase == SmsCode <==> b.login.LoginPage? && SmsNeeded(b.login.bodyText, b.login.hasSmsCodeElement))
      && (r.chat.phase == Groups <==> b.login.LoginPage? && !SmsNeeded(b.login.bodyText, b.login.hasSmsCodeElement))
      && (r.chat.phase == SelectProfile <==> b.login.LoginRaised?)
      && (r.chat.data.session.value.closed <==> b.login.LoginRaised?)
  {
    assert Step(profiles, c, Button(Some(i)), b) == ChooseProfileStep(profiles, c, Some(i), b.login);
  }

  /**
   * In `SmsCode` a tagged message that is not a well-formed code submits
   * nothing and stays; a well-formed code is submitted, and the state moves
   * to `Groups` exactly when the browser accepted it, otherwise it stays so
   * the operator can retry. The stored data does not change.
   */
  lemma SmsCodeTransitions(profiles: seq<Profile>, c: Chat, text: string, b: Browser)
    requires Inv(profiles, c) && c.phase == SmsCode && SmsTag <= text
    ensures var r := Step(profiles, c, Message(text), b);
      && r.chat.data == c.data && r.posts == []
      && r.submittedCode == ParseSmsCode(text)
      && (r.chat.phase == Groups <==> ParseSmsCode(text).Some? && SmsAccepted(b.sms))
      && (r.chat.phase == SmsCode <==> ParseSmsCode(text).None? || !SmsAccepted(b.sms))
  {
    assert Step(profiles, c, Message(text), b) == SmsCodeStep(c, text, b.sms);
  }

  /**
   * In `Groups` the stored list becomes every link of the command, and the
   * state moves to `PostInfo`, exactly when there is at least one link;
   * otherwise nothing is stored and the state stays.
   */
  lemma GroupsTransitions(profiles: seq<Profile>, c: Chat, text: string, b: Browser)
    requires c.phase == Groups && GroupsTag <= text
    ensures var r := Step(profiles, c, Message(text), b);
      && r.chat.data.session == c.data.session && r.submittedCode.None? && r.posts == []
      && (r.chat.phase == PostInfo <==> ParseGroups(text).GroupsFound?)
      && (ParseGroups(text).GroupsFound? ==> r.chat.data.groups == Some(ParseGroups(text).links))
      && (!ParseGroups(text).GroupsFound? ==> r.chat == c)
  {
    assert Step(profiles, c, Message(text), b) == GroupsStep(c, text);
  }

  /**
   * In `PostInfo` a well-formed post command posts once to every stored
   * group, in the stored order, on the group's page, and ends the
   * conversation with the session closed; when the k-th call raises, k+1
   * `post_to_group` calls were made, the last of which raised, and the
   * state stays.
   */
  lemma PostTransitions(profiles: seq<Profile>, c: Chat, text: string, b: Browser)
    requires Inv(profiles, c) && c.phase == PostInfo && PostTag <= text
    ensures var r := Step(profiles, c, Message(text), b);
      var groups := c.data.groups.value;
      && r.submittedCode.None?
      && (ParsePost(text).None? ==> r == Outcome(c, [BadPostFormat], None, []))
      && (ParsePost(text).Some? ==>
            var cmd := ParsePost(text).value;
            var n := if b.failingPost.Some? && b.failingPost.value < |groups| then b.failingPost.value + 1 else |groups|;
            && |r.posts| == n
            && (forall i :: 0 <= i < n ==> r.posts[i] == Post(groups[i] + "/post", cmd.videoUrl, cmd.caption))
            && (r.chat.phase == Idle <==> !(b.failingPost.Some? && b.failingPost.value < |groups|))
            && (r.chat.phase == Idle ==>
                  r.chat.data == c.data.(session := Some(c.data.session.value.(closed := true))))
            && (r.chat.phase != Idle ==> r.chat == c))
  {
    assert Step(profiles, c, Message(text), b) == PostStep(c, text, b.failingPost);
    var groups := c.data.groups.value;
    if ParsePost(text).Some? {
      var cmd := ParsePost(text).value;
      forall i | 0 <= i < |groups|
        ensures PostsFor(groups, cmd)[i] == Post(groups[i] + "/post", cmd.videoUrl, cmd.caption)
      {
        PostUrlOfGroupLink(groups[i]);
      }
    }
  }

  // ---------------------------------------------------------------------------
  // A whole run
  // ---------------------------------------------------------------------------

  /** A well-formed code after the tag and a space is submitted and, once accepted, leads to `Groups`. */
  lemma CodeAccepted(ps: seq<Profile>, d: UserData, code: string, b: Browser)
    requires d.session.Some? && All(code, IsDigit) && 4 <= |code| <= 6 && SmsAccepted(b.sms)
    ensures Step(ps, Chat(SmsCode, d), Message(SmsTag + " " + code), b)
            == Outcome(Chat(Groups, d), [SmsConfirmed], Some(code), [])
  {
    assert SmsTag + " " + code == SmsTag + " " + code + "";
    ParseSmsCodeComplete(" ", code, "");
  }

  /** Space-separated links after the tag are stored as exactly that list, duplicates kept. */
  lemma LinksStored(ps: seq<Profile>, d: UserData, links: seq<string>, b: Browser)
    requires links != [] && forall k :: 0 <= k < |links| ==> IsGroupLink(links[k])
    ensures Step(ps, Chat(Groups, d), Message(GroupsTag + " " + JoinLinks(links)), b)
            == Outcome(Chat(PostInfo, d.(groups := Some(links))), [GroupsSaved], None, [])
  {
    ParseGroupsJoin(links);
    GroupsMessageStep(ps, d, GroupsTag + " " + JoinLinks(links), links, b);
  }

  /** A tagged message in `Groups` whose links parse is handled by `groups_handler` alone. */
  lemma GroupsMessageStep(ps: seq<Profile>, d: UserData, text: string, links: seq<string>, b: Browser)
    requires ParseGroups(text) == GroupsFound(links)
    ensures Step(ps, Chat(Groups, d), Message(text), b)
            == Outcome(Chat(PostInfo, d.(groups := Some(links))), [GroupsSaved], None, [])
  {
    assert Dispatch(Groups, Message(text)) == Some(GroupsHandler(text));
  }

  /** A well-formed post with no failing group posts to every stored group and ends the conversation. */
  lemma PostPublished(ps: seq<Profile>, d: UserData, url: string, caption: string, b: Browser)
    requires d.session.Some? && d.groups.Some?
    requires forall k :: 0 <= k < |d.groups.value| ==> IsGroupLink(d.groups.value[k])
    requires IsVideoUrl(url) && caption != [] && IsNonSpace(caption[0]) && b.failingPost.None?
    ensures var r := Step(ps, Chat(PostInfo, d), Message(PostTag + " " + url + " " + caption), b);
      && r.chat.phase == Idle && r.chat.data.session.value.closed
      && r.replies == [Publishing, Published]
      && |r.posts| == |d.groups.value|
      && forall i :: 0 <= i < |r.posts| ==> r.posts[i] == Post(d.groups.value[i] + "/post", url, caption)
  {
    var text := PostTag + " " + url + " " + caption;
    ParsePostComplete(" ", url, " ", caption);
    PostMessageStep(ps, d, text, PostCommand(url, caption), b);
    forall i | 0 <= i < |d.groups.value| {
      PostUrlOfGroupLink(d.groups.value[i]);
    }
  }

  /** A tagged message in `PostInfo` that parses, with no post failing, is handled by `post_handler` alone. */
  lemma PostMessageStep(ps: seq<Profile>, d: UserData, text: string, cmd: PostCommand, b: Browser)
    requires PostTag <= text && ParsePost(text) == Some(cmd)
    requires d.session.Some? && d.groups.Some? && b.failingPost.None?
    ensures Step(ps, Chat(PostInfo, d), Message(text), b)
            == Outcome(Chat(Idle, d.(session := Some(d.session.value.(closed := true)))),
                       [Publishing, Published], None, PostsFor(d.groups.value, cmd))
  {
    assert Dispatch(PostInfo, Message(text)) == Some(PostHandler(text));
  }

  /**
   * `/start`, the first profile and a login page that asks for an SMS code,
   * then a code that is accepted: the code is submitted as typed and the
   * conversation waits for the group list with the profile's session open.
   */
  lemma SignInWithCode(p: Profile, code: string, b: Browser)
    requires All(code, IsDigit) && 4 <= |code| <= 6
    requires b.login.LoginPage? && SmsNeeded(b.login.bodyText, b.login.hasSmsCodeElement)
    requires SmsAccepted(b.sms)
    ensures
      var r1 := Step([p], Initial, Command("start"), b);
      var r2 := Step([p], r1.chat, Button(Some(0)), b);
      var r3 := Step([p], r2.chat, Message(SmsTag + " " + code), b);
      && r2.chat == Chat(SmsCode, UserData(Some(Session(p, false)), None))
      && r3.submittedCode == Some(code)
      && r3.chat == Chat(Groups, UserData(Some(Session(p, false)), None))
  {
    var d := UserData(Some(Session(p, false)), None);
    var r1 := Step([p], Initial, Command("start"), b);
    assert r1.chat == Chat(SelectProfile, Initial.data) by {
      StartOpensSelection([p], Initial, b);
    }
    var r2 := Step([p], r1.chat, Button(Some(0)), b);
    assert r2.chat == Chat(SmsCode, d) by {
      ChooseProfileTransitions([p], r1.chat, 0, b);
    }
    CodeAccepted([p], d, code, b);
  }

  /**
   * A group link listed twice, then a post: both list entries are kept, one
   * post is made per entry on the group's post page, and the conversation ends.
   */
  lemma RepeatedGroupPosted(ps: seq<Profile>, d: UserData, group: string, video: string, caption: string, b: Browser)
    requires d.session.Some?
    requires IsGroupLink(group) && IsVideoUrl(video) && caption != [] && IsNonSpace(caption[0])
    requires b.failingPost.None?
    ensures
      var r4 := Step(ps, Chat(Groups, d), Message(GroupsTag + " " + group + " " + group), b);
      var r5 := Step(ps, r4.chat, Message(PostTag + " " + video + " " + caption), b);
      && r4.chat.phase == PostInfo && r4.chat.data.groups == Some([group, group])
      && r5.chat.phase == Idle
      && r5.posts == [Post(group + "/post", video, caption), Post(group + "/post", video, caption)]
  {
    var d2 := d.(groups := Some([group, group]));
    GroupListedTwice(ps, d, group, b);
    var r5 := Step(ps, Chat(PostInfo, d2), Message(PostTag + " " + video + " " + caption), b);
    assert r5.chat.phase == Idle && |r5.posts| == 2
        && r5.posts[0] == Post(group + "/post", video, caption)
        && r5.posts[1] == Post(group + "/post", video, caption) by {
      PostPublished(ps, d2, video, caption, b);
    }
  }

  /** A link listed twice is stored twice. */
  lemma GroupListedTwice(ps: seq<Profile>, d: UserData, group: string, b: Browser)
    requires IsGroupLink(group)
    ensures Step(ps, Chat(Groups, d), Message(GroupsTag + " " + group + " " + group), b).chat
            == Chat(PostInfo, d.(groups := Some([group, group])))
  {
    var links := [group, group];
    assert links[1..] == [group];
    assert JoinLinks(links) == group + " " + group;
    assert GroupsTag + " " + JoinLinks(links) == GroupsTag + " " + group + " " + group;
    LinksStored(ps, d, links, b);
  }

  /** The two halves above, run back to back from the initial state. */
  lemma PublishingRun(p: Profile, code: string, group: string, video: string, caption: string, b: Browser)
    requires All(code, IsDigit) && 4 <= |code| <= 6
    requires IsGroupLink(group) && IsVideoUrl(video) && caption != [] && IsNonSpace(caption[0])
    requires b.login.LoginPage? && SmsNeeded(b.login.bodyText, b.login.hasSmsCodeElement)
    requires SmsAccepted(b.sms) && b.failingPost.None?
    ensures
      var r1 := Step([p], Initial, Command("start"), b);
      var r2 := Step([p], r1.chat, Button(Some(0)), b);
      var r3 := Step([p], r2.chat, Message(SmsTag + " " + code), b);
      var r4 := Step([p], r3.chat, Message(GroupsTag + " " + group + " " + group), b);
      var r5 := Step([p], r4.chat, Message(PostTag + " " + video + " " + caption), b);
      && r3.submittedCode == Some(code)
      && r4.chat.data.groups == Some([group, group])
      && r5.chat.phase == Idle
      && r5.posts == [Post(group + "/post", video, caption), Post(group + "/post", video, caption)]
  {
    SignInWithCode(p, code, b);
    RepeatedGroupPosted([p], UserData(Some(Session(p, false)), None), group, video, caption, b);
  }
}
