/**
 * The mutable side of the conversation (okru_post_bot.py): one chat's state
 * as the `ConversationHandler` keeps it together with that user's
 * `context.user_data`, updated in place by the handlers, and the loop that
 * publishes to the stored groups one after another.
 */
module Bot {
  import opened Wrappers
  import opened Profiles
  import opened Commands
  import opened Pages
  import opened Conversation

  /**
   * `[session.post_to_group(g, video_url, text) for g in groups]`: one post
   * per group, in order, each on the group's post page; the first call that
   * raises ends the loop after having been made.
   */
  method PublishAll(groups: seq<string>, cmd: PostCommand, failingPost: Option<nat>)
    returns (posts: seq<Post>, raised: bool)
    ensures raised <==> failingPost.Some? && failingPost.value < |groups|
    ensures |posts| == if raised then failingPost.value + 1 else |groups|
    ensures forall i :: 0 <= i < |posts| ==> posts[i] == Post(PostUrl(groups[i]), cmd.videoUrl, cmd.caption)
    ensures posts == if raised then PostsFor(groups, cmd)[..failingPost.value + 1] else PostsFor(groups, cmd)
  {
    posts, raised := [], false;
    for i := 0 to |groups|
      invariant |posts| == i
      invariant forall j :: 0 <= j < i ==> posts[j] == Post(PostUrl(groups[j]), cmd.videoUrl, cmd.caption)
      invariant failingPost.Some? ==> i <= failingPost.value
      invariant posts == PostsFor(groups, cmd)[..i]
    {
      posts := posts + [Post(PostUrl(groups[i]), cmd.videoUrl, cmd.caption)];
      assert posts == PostsFor(groups, cmd)[..i + 1];
      if failingPost == Some(i) {
        raised := true;
        return;
      }
    }
    assert PostsFor(groups, cmd)[..|groups|] == PostsFor(groups, cmd);
  }

  /** One chat: the conversation state and the user's stored session and groups. */
  class ChatState {
    const profiles: seq<Profile>
    var phase: Phase
    var session: Option<Session>
    var groups: Option<seq<string>>

    function Snapshot(): Chat
      reads this
    {
      Chat(phase, UserData(session, groups))
    }

    ghost predicate Valid()
      reads this
    {
      Inv(profiles, Snapshot())
    }

    constructor (profiles: seq<Profile>)
      ensures Valid() && this.profiles == profiles && Snapshot() == Initial
    {
      this.profiles := profiles;
      phase, session, groups := Idle, None, None;
    }

    /** `start`: offer the profiles and wait for a choice. */
    method OnStart() returns (replies: seq<Reply>)
      requires Valid() && phase == Idle
      modifies this
      ensures Valid()
      ensures Outcome(Snapshot(), replies, None, []) == StartStep(profiles, old(Snapshot()))
    {
      phase := SelectProfile;
      replies := [ChooseProfile(Persons(profiles))];
    }

    /** `select_profile`: store a session for the chosen profile and log in with it. */
    method OnProfileChosen(index: Option<int>, login: LoginPage) returns (replies: seq<Reply>)
      requires Valid() && phase == SelectProfile
      modifies this
      ensures Valid()
      ensures Outcome(Snapshot(), replies, None, []) == ChooseProfileStep(profiles, old(Snapshot()), index, login)
    {
      ghost var before := Snapshot();
      ChooseProfileKeepsInv(profiles, before, index, login);
      replies := [];
      if index.None? {
        return;
      }
      var profile := ProfileByIndex(profiles, index.value);
      if profile.None? {
        return;
      }
      session := Some(Session(profile.value, false));
      match login {
        case LoginRaised =>
          session := Some(Session(profile.value, true));
        case LoginPage(body, hasElement) =>
          if SmsNeeded(body, hasElement) {
            phase, replies := SmsCode, [AskSmsCode];
          } else {
            phase, replies := Groups, [LoggedIn];
          }
      }
    }

    /** `sms_code_handler`: submit a well-formed code with the stored session. */
    method OnSmsCode(text: string, sms: SmsPage) returns (replies: seq<Reply>, submittedCode: Option<string>)
      requires Valid() && phase == SmsCode
      modifies this
      ensures Valid()
      ensures Outcome(Snapshot(), replies, submittedCode, []) == SmsCodeStep(old(Snapshot()), text, sms)
    {
      ghost var before := Snapshot();
      SmsCodeKeepsInv(profiles, before, text, sms);
      replies, submittedCode := [], None;
      var code := ParseSmsCode(text);
      if code.None? {
        replies := [BadCodeFormat];
        return;
      }
      if session.None? {
        return;
      }
      submittedCode := code;
      if SmsAccepted(sms) {
        phase, replies := Groups, [SmsConfirmed];
      } else {
        replies := [WrongCode];
      }
    }

    /** `groups_handler`: store the listed group links. */
    method OnGroups(text: string) returns (replies: seq<Reply>)
      requires Valid() && phase == Groups
      modifies this
      ensures Valid()
      ensures Outcome(Snapshot(), replies, None, []) == GroupsStep(old(Snapshot()), text)
    {
      ghost var before := Snapshot();
      GroupsKeepsInv(profiles, before, text);
      match ParseGroups(text) {
        case GroupsBadFormat =>
          replies := [BadGroupsFormat];
        case GroupsNoLinks =>
          replies := [NoLinks];
        case GroupsFound(links) =>
          groups := Some(links);
          phase, replies := PostInfo, [GroupsSaved];
      }
    }

    /** `post_handler`: publish to every stored group, then close the session. */
    method OnPost(text: string, failingPost: Option<nat>) returns (replies: seq<Reply>, posts: seq<Post>)
      requires Valid() && phase == PostInfo
      modifies this
      ensures Valid()
      ensures Outcome(Snapshot(), replies, None, posts) == PostStep(old(Snapshot()), text, failingPost)
    {
      ghost var before := Snapshot();
      PostKeepsInv(profiles, before, text, failingPost);
      replies, posts := [], [];
      var cmd := ParsePost(text);
      if cmd.None? {
        replies := [BadPostFormat];
        return;
      }
      if session.None? || groups.None? {
        return;
      }
      replies := [Publishing];
      var raised;
      posts, raised := PublishAll(groups.value, cmd.value, failingPost);
      if raised {
        return;
      }
      session := Some(session.value.(closed := true));
      phase, replies := Idle, replies + [Published];
    }

    /** `cancel`: close the stored session, if any, and end the conversation. */
    method OnCancel() returns (replies: seq<Reply>)
      requires Valid() && phase != Idle
      modifies this
      ensures Valid()
      ensures Outcome(Snapshot(), replies, None, []) == CancelStep(old(Snapshot()))
    {
      if session.Some? {
        session := Some(session.value.(closed := true));
      }
      phase, replies := Idle, [Cancelled];
    }

    /** Dispatch one update to its handler and run it, updating the state in place. */
    method Handle(u: Update, b: Browser) returns (replies: seq<Reply>, submittedCode: Option<string>, posts: seq<Post>)
      requires Valid()
      modifies this
      ensures Valid()
      ensures Outcome(Snapshot(), replies, submittedCode, posts) == Step(profiles, old(Snapshot()), u, b)
    {
      ghost var before := Snapshot();
      StepPreservesInv(profiles, before, u, b);
      replies, submittedCode, posts := [], None, [];
      var handler := Dispatch(phase, u);
      if handler.None? {
        return;
      }
      assert Step(profiles, before, u, b) == Apply(profiles, before, handler.value, b);
      match handler.value
      case Start =>
        replies := OnStart();
      case ChooseProfileHandler(index) =>
        replies := OnProfileChosen(index, b.login);
      case SmsCodeHandler(text) =>
        replies, submittedCode := OnSmsCode(text, b.sms);
      case GroupsHandler(text) =>
        replies := OnGroups(text);
      case PostHandler(text) =>
        replies, posts := OnPost(text, b.failingPost);
      case CancelHandler =>
        replies := OnCancel();
    }
  }
}
