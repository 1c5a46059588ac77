# okru_post_bot core in Dafny

`okru_post_bot.py` is a Telegram bot. An operator talks to it, and it drives a
headless browser that logs into ok.ru and publishes a video link with a caption
to a list of groups. This project models the logic under the Telegram, Flask
and Selenium glue:

- **Profiles** (`profiles.dfy`) covers the module-level start-up code.
  - Profiles are read from the environment: the numbered profiles 1..9 first, then the unnumbered fallback.
  - Start-up aborts when the bot token, the external URL or every profile is missing.
  - The loop is a `method` proved against a specification function.
- **Commands** (`commands.dfy`) covers the three operator commands: `#код`, `#группы` and `#пост`.
  - Each Python regular expression is written out as an explicit scanner.
  - Each scanner is proved sound and complete against a declarative description of the text the regex accepts. The description includes the parts Python's backtracking matcher picks.
- **Pages** (`pages.dfy`) covers three pure checks inside `OKSession`:
  - the "SMS needed" test on the page after login;
  - the "SMS accepted" test on the page after the code is submitted;
  - the group's post address.
- **Conversation** (`conversation.dfy`) is the `ConversationHandler` as a pure transition function.
  - The state is the conversation state plus the user's stored `session` and `groups`.
  - An update is a command, a button press or a text message.
  - What the browser reports comes in as an input: the login page, the SMS page, and which post (if any) raises.
  - Lemmas cover dispatch, every handler's transitions, an invariant kept by every step, and whole runs.
- **Bot** (`bot.dfy`) is the same machine as a class whose fields the handlers update in place, like `context.user_data`.
  - Each handler method is proved equal to the pure step.
  - The publishing loop is a `method` with loop invariants.

Text is `seq<char>`. `\s` is Python's Unicode whitespace class, as `str.isspace` defines it. `.` is any character except a line feed.

## Model

| member | source | states |
|---|---|---|
| Profiles.ConfiguredProfiles | okru_post_bot.py:28-41 | `PROFILES` holds at most 9 profiles, each with a non-empty email, password and person. It is empty exactly when no numbered profile is complete and the unnumbered one is not complete either. |
| Profiles.LoadProfiles | okru_post_bot.py:28-41 | The loop and its fallback give the configured list: the complete numbered profiles when there is at least one, otherwise the unnumbered profile when its three variables are set, otherwise nothing. The list has at most 9 entries, and at most 1 when no numbered profile is complete. |
| Profiles.NumberedProfilesIndexed | okru_post_bot.py:29-34 | The k-th loaded profile is built from the k-th index whose `OK_EMAIL_i`, `OK_PASSWORD_i` and `OK_PERSON_i` are all set and non-empty. These indices increase strictly. An index is used exactly when all three of its variables are set. |
| Profiles.FallbackOnlyWhenNoNumbered | okru_post_bot.py:35-41 | When some numbered profile is complete, the result is the numbered list and the unnumbered variables play no part. When none is complete, the result is the unnumbered profile if complete, else empty. |
| Profiles.Startup | okru_post_bot.py:43-47 | Start-up succeeds exactly when the token and the external URL are set and non-empty and at least one profile is configured. On success it carries those values. Otherwise it is the start-up error. |
| Text.Contains | okru_post_bot.py:93 | Python's substring test holds exactly when the needle occurs at some position. |
| Commands.ParseSmsCode | okru_post_bot.py:162-166 | An accepted message starts with `#код`. The code is 4 to 6 ASCII digits. |
| Commands.ParseSmsCodeSound | okru_post_bot.py:162 | An accepted code splits the message into tag, whitespace, code and rest. The code is the greedy digit run: six digits, or followed by no further digit. |
| Commands.ParseSmsCodeComplete | okru_post_bot.py:162 | Every message made of the tag, optional whitespace and 4 to 6 digits is accepted. The code extracted is exactly those digits when no further digit follows or there are six already. |
| Commands.MatchGroupsCommand | okru_post_bot.py:176 | A match implies the message starts with `#группы`. Group 1 is non-empty and holds no line feed. |
| Commands.GroupsArgStart | okru_post_bot.py:176 | Where group 1 starts: after the tag and only whitespace, strictly past the tag, on a character other than a line feed. When the whitespace runs to the end of the text, this is where the greedy `\s+` gives characters back. |
| Commands.MatchGroupsSound | okru_post_bot.py:176 | A match splits the message into tag, at least one whitespace character, group 1, and a rest that is empty or starts a new line. |
| Commands.MatchGroupsComplete | okru_post_bot.py:176 | Every message of that shape matches. The greedy `\s+` reaches at least as far as the whitespace of any such split. |
| Commands.MatchGroupsExact | okru_post_bot.py:176 | When the argument starts with a non-space character, group 1 is exactly the argument. |
| Commands.LinkLen | okru_post_bot.py:180 | A positive length is a full `https?://ok\.ru/group/\d+` match that no further digit follows. |
| Commands.LinkLenExact | okru_post_bot.py:180 | A full link at the start of the text that no further digit follows is exactly what the pattern matches there. |
| Commands.FindGroupLinks | okru_post_bot.py:180 | Every string `findall` returns is a full group link. |
| Commands.FindGroupLinksSplit | okru_post_bot.py:180 | Two texts joined by a separator give the links of the first followed by the links of the second. A separator is any character that is neither a digit nor part of `https://ok.ru/group/`, such as whitespace or a comma. |
| Commands.FindGroupLinksWithoutH | okru_post_bot.py:180 | Text with no `h` holds no link. |
| Commands.FindTwoLinks | okru_post_bot.py:180 | Two links with a separator between them, such as `u,v`, are both found, in order. |
| Commands.FindCommaSeparatedLinks | okru_post_bot.py:180 | Two links pasted with only a comma between them are both found, in order. |
| Commands.FindGroupLinksJoin | okru_post_bot.py:180 | Links written one after another with spaces between them are found back as the same list, in order, duplicates kept. |
| Commands.ParseGroups | okru_post_bot.py:176-184 | A result other than bad format implies the tag is present. A found list is non-empty and made of group links. |
| Commands.GroupsWhitespaceOnly | okru_post_bot.py:176-181 | The tag followed by one space, or by a space and a line feed, is a bad format. The tag followed by two spaces matches, but holds no links. |
| Commands.ParseGroupsJoin | okru_post_bot.py:176-184 | `#группы` followed by a space and space-separated links is read back as exactly that list. |
| Commands.UrlEnd | okru_post_bot.py:189 | The scan either finds no link, or ends a `https?://\S+` link at whitespace or at the end of the text. |
| Commands.UrlEndExact | okru_post_bot.py:189 | A link followed by whitespace or by the end of the text is scanned exactly. |
| Commands.ParsePost | okru_post_bot.py:189-193 | An accepted post starts with `#пост`, has a video link matching `https?://\S+`, and has a non-empty caption. |
| Commands.ParsePostSound | okru_post_bot.py:189-193 | An accepted post splits the message into tag, whitespace, link, whitespace and caption. |
| Commands.ParsePostComplete | okru_post_bot.py:189-193 | Every message of that shape is accepted with exactly that link. When the caption starts with a non-space character, the caption is group 2 exactly. |
| Commands.ParsePostWhitespaceTail | okru_post_bot.py:189-193 | When only whitespace follows the link, two or more characters of it give the last one as the caption, because `\s+` gives it back. A single character does not match. |
| Pages.LowerAll | okru_post_bot.py:92 | Lower-casing keeps the length and lower-cases every character. |
| Pages.SmsNeeded | okru_post_bot.py:92-93 | The `smsCode` element alone is enough to need SMS. A body shorter than `sms` needs SMS only through the element. |
| Pages.SmsNeededIff | okru_post_bot.py:92-93 | SMS is needed exactly when the page has the `smsCode` element or `sms` occurs in the body text in any mix of letter case. |
| Pages.SmsSucceeded | okru_post_bot.py:112-113 | Success needs a `data-l` attribute at least as long as `userMain`. |
| Pages.SmsSucceededIff | okru_post_bot.py:112-113 | A missing `data-l` attribute never means success. A present one means success exactly when it contains `userMain`. |
| Pages.StripTrailingSlashes | okru_post_bot.py:124 | `rstrip('/')` gives a prefix of the input that does not end in `/`. Only slashes were removed. |
| Pages.StripTrailingSlashesUnique | okru_post_bot.py:124 | The properties above determine the stripped string. |
| Pages.StripTrailingSlashesIdempotent | okru_post_bot.py:124 | Stripping twice is stripping once. |
| Pages.PostUrl | okru_post_bot.py:124 | The post page is a prefix of the group address followed by `/post`. The prefix does not end in `/`, and only slashes of the address were dropped. |
| Pages.PostUrlIgnoresTrailingSlashes | okru_post_bot.py:124 | Any number of trailing slashes on the group address leaves the post page unchanged. |
| Pages.PostUrlOfGroupLink | okru_post_bot.py:124 | The post page of a link found by the groups command is that link followed by `/post`. |
| Conversation.ProfileByIndex | okru_post_bot.py:151 | `PROFILES[idx]` yields a profile exactly when `-len <= idx < len`. That profile is entry `idx`, or entry `idx + len` for a negative index. Otherwise it is the `IndexError`. |
| Conversation.Dispatch | okru_post_bot.py:225-234 | The handler chosen is one the `ConversationHandler` lists for the current state. `/cancel` reaches the fallback exactly in an active conversation. With no conversation, only `/start` is handled. A button in the profile choice reaches that handler with its index. A message carrying the state's tag reaches the state's handler with its text. Conversely, each handler runs only on the kind of update its filter accepts: the profile handler on a button, a state's message handler on a text that starts with that state's tag, and `/start` and `/cancel` on commands. |
| Conversation.StartStep | okru_post_bot.py:144-147 | `start` moves to the profile choice and keeps the stored data. It replies with one button per profile, labelled with that profile's person, in order. |
| Conversation.ChooseProfileStep | okru_post_bot.py:149-159 | `select_profile` never submits a code or posts, and keeps the stored groups. A missing or out-of-range index changes nothing. When the state moves, it moves to `SmsCode` or `Groups` after a login page, with an open session for the chosen profile. |
| Conversation.SmsAccepted | okru_post_bot.py:104-121 | A code counts as accepted only when `submit_sms` found a `data-l` attribute containing `userMain`. |
| Conversation.SmsCodeStep | okru_post_bot.py:161-173 | The SMS handler makes no post. A code it submits is 4 to 6 digits. |
| Conversation.GroupsStep | okru_post_bot.py:175-186 | The groups handler submits no code and makes no post. |
| Conversation.PostsFor | okru_post_bot.py:197 | One post per stored group, in stored order, each on that group's post page with the video link and caption. |
| Conversation.PostStep | okru_post_bot.py:188-200 | The post handler submits no code. It makes posts only when groups are stored, and never more posts than groups. |
| Conversation.CancelStep | okru_post_bot.py:202-206 | `cancel` ends the conversation, replies once and keeps the stored groups. A stored session stays for the same profile and is closed. |
| Conversation.Apply | okru_post_bot.py:144-206 | Only the SMS handler submits a code, always 4 to 6 digits. Only the post handler posts, at most once per stored group. |
| Conversation.Step | okru_post_bot.py:225-234 | An update no handler takes leaves everything unchanged. A submitted code comes from the `SmsCode` state. Posts come from the `PostInfo` state with groups stored, never more than the number of groups. |
| Conversation.InitialInv | okru_post_bot.py:225-234 | The initial state, with nothing stored, satisfies the invariant. |
| Conversation.StepPreservesInv | okru_post_bot.py:144-206 | Every update keeps the invariant. A stored session belongs to a configured profile. It is open in the three message states. Stored groups are a non-empty list of group links, and they are present in `PostInfo`. |
| Conversation.ApplyKeepsInv | okru_post_bot.py:144-206 | Every handler run in a state that lists it keeps the invariant. |
| Conversation.RunPreservesInv | okru_post_bot.py:225-234 | Every state reachable by any sequence of updates satisfies the invariant. |
| Conversation.StartOpensSelection | okru_post_bot.py:144-147 | `/start` with no conversation offers every profile and moves to the profile choice. |
| Conversation.WrongKindIgnored | okru_post_bot.py:228-231 | A text message during the profile choice, and a button press while a tagged message is awaited, are not handled and change nothing. |
| Conversation.UntaggedMessageIgnored | okru_post_bot.py:229-231 | A text message that does not start with the current state's tag is not handled and changes nothing. |
| Conversation.CancelEnds | okru_post_bot.py:202-206 | `/cancel` always leaves the conversation ended. In an active conversation it closes a stored session. |
| Conversation.ChooseProfileTransitions | okru_post_bot.py:149-159 | Choosing profile i stores a session for that profile. It moves to `SmsCode` exactly when the login page asks for SMS. It moves to `Groups` exactly when the page does not ask. It stays exactly when the login raised, and the stored session is closed exactly then. |
| Conversation.SmsCodeTransitions | okru_post_bot.py:161-173 | The code submitted is exactly the parsed one, or none. The state moves to `Groups` exactly when a code parsed and was accepted. Otherwise it stays, so the operator can retry. Stored data does not change. |
| Conversation.GroupsTransitions | okru_post_bot.py:175-186 | The state moves to `PostInfo` exactly when links were found, and the stored list becomes exactly those links. Otherwise nothing changes. |
| Conversation.PostTransitions | okru_post_bot.py:188-200 | A malformed post only gets a reply. A well-formed one posts to the stored groups in order on `<group>/post`. If call k raises, exactly k+1 `post_to_group` calls were made, the last of which raised, and the state stays. Otherwise every group got a `post_to_group` call, the session is closed and the conversation ends. |
| Conversation.CodeAccepted | okru_post_bot.py:161-171 | `#код` followed by a space and a 4 to 6 digit code is submitted as typed. When the page accepts it, the state moves to `Groups`. |
| Conversation.LinksStored | okru_post_bot.py:175-186 | The groups command written as the reply prompt suggests stores exactly its links. |
| Conversation.GroupsMessageStep | okru_post_bot.py:175-186 | A parsed group list moves the state to `PostInfo` with that list stored. |
| Conversation.PostPublished | okru_post_bot.py:188-200 | A well-formed post with no failing group posts to every stored group on its post page, closes the session and ends the conversation. |
| Conversation.PostMessageStep | okru_post_bot.py:188-200 | A parsed post with no failure publishes to every stored group and ends the conversation with the session closed. |
| Conversation.SignInWithCode | okru_post_bot.py:144-171 | `/start`, the first profile, a login that asks for SMS, and an accepted code end in `Groups` with the profile's session open and the code submitted. |
| Conversation.GroupListedTwice | okru_post_bot.py:176-184 | A link listed twice is stored twice. |
| Conversation.RepeatedGroupPosted | okru_post_bot.py:175-200 | A link listed twice, then a post, gives two posts to that group's post page, and the conversation ends. |
| Conversation.PublishingRun | okru_post_bot.py:144-200 | The whole run from `/start` to the final post, chaining the two scenarios above. |
| Bot.PublishAll | okru_post_bot.py:197 | The loop makes one `post_to_group` call per group, in order, on the group's post page. It raises exactly when the failing index is within the list. The calls then run up to and including the one that raised. The calls made are `PostsFor` of the groups, or its first k+1 entries when call k raised. |
| Bot.ChatState.constructor | okru_post_bot.py:225-234 | A new chat has no conversation and nothing stored, and satisfies the invariant. |
| Bot.ChatState.OnStart | okru_post_bot.py:144-147 | The in-place `start` equals the pure step. |
| Bot.ChatState.OnProfileChosen | okru_post_bot.py:149-159 | The in-place `select_profile`, which writes `user_data['session']`, equals the pure step. |
| Bot.ChatState.OnSmsCode | okru_post_bot.py:161-173 | The in-place `sms_code_handler` equals the pure step. |
| Bot.ChatState.OnGroups | okru_post_bot.py:175-186 | The in-place `groups_handler`, which writes `user_data['groups']`, equals the pure step. |
| Bot.ChatState.OnPost | okru_post_bot.py:188-200 | The in-place `post_handler`, built on the publishing loop, equals the pure step. |
| Bot.ChatState.OnCancel | okru_post_bot.py:202-206 | The in-place `cancel` equals the pure step. |
| Bot.ChatState.Handle | okru_post_bot.py:225-234 | Dispatching an update and running its handler in place gives the new state, replies, submitted code and posts of the pure step, and keeps the invariant. |

## Behaviour of the code worth knowing

- There is no session lock and no busy answer to a second operator.
- There is no wait/fulfil primitive.
- A rejected SMS code can be retried: the state stays `SmsCode`.
- Publishing is not isolated per group. The first `post_to_group` that raises leaves the list comprehension at line 197. The groups before it have been posted to, the state stays `PostInfo`, and the session is not closed.

## Regular-expression corner cases the model keeps

- In `#группы\s+(.+)`, when the whitespace after the tag runs to the end of the message, the greedy `\s+` gives characters back. Group 1 is then the last character that is not a line feed after the first whitespace character, and `findall` finds no link in it, so the handler answers "no links". When there is no such character, as in `#группы ` or `#группы \n`, the message does not match and the handler asks for the format again.
- In `#пост\s+(https?://\S+)\s+([\s\S]+)`, when everything after the link is whitespace, and there are at least two characters of it, the caption is the last of them.
- `re.match` anchors only at the start. Text after the SMS code or after the first line of the groups command is ignored.

## Left out

- Browser automation is not modelled: starting the driver, waits, clicks, typing, the identity-confirmation button, typing the caption line by line, and `quit`. What the browser reports is an input (`Conversation.Browser`). That input is the login page's body text and whether it has the `smsCode` element, or a `WebDriverException`. It also gives the `data-l` attribute after the code, or an exception, and which post raises, if any.
- `OKSession.close` is a `closed` flag on the stored session.
- Telegram and Flask I/O is left out: reply texts, inline keyboards, `query.answer`, the health and webhook routes, webhook registration and logging. Replies are the `Reply` values.
- `run_in_executor`, the event loop, the unawaited `asyncio.sleep` calls and the 20-second `WebDriverWait` timeouts are scheduling and time. They are left out.
- `int(query.data)` is abstracted: a button carries `Option<int>`, with `None` when the conversion raises.
- Commands.LinkLen: `\d+` in the group-link pattern is taken as ASCII digits only, and so are `IsGroupLink`, `FindGroupLinks` and `ParseGroups`. Python also accepts other Unicode decimal digits there, so a link such as `https://ok.ru/group/١٢٣` is stored by the bot but not found by the model.
- Commands.ParseSmsCode: `\d` is taken as the ASCII digits. Python also accepts other Unicode decimal digits there.
- Pages.LowerAll: only ASCII letters are lower-cased. This is exact for finding `sms`, but the model does not capture that `str.lower` can change a string's length.
- The framework keeps one conversation per chat and user. The model is one chat. Concurrent chats and the framework's own locking are not modelled.
- Exceptions the code does not expect are not modelled separately. A non-`WebDriverException` in `login` reads like `LoginRaised`. That case over-approximates the `closed` flag: the code calls `close()` only for a `WebDriverException`. An exception inside `submit_sms` already counts as a rejected code, as the code does.
