/**
 * The three operator commands (okru_post_bot.py, `sms_code_handler`,
 * `groups_handler`, `post_handler`), each a Python `re.match` anchored at the
 * start of the message or a `re.findall`, written out as explicit scanners.
 * Every parser comes with a soundness lemma (what it accepts has the shape
 * of a regex match, with the parts Python's greedy matcher picks) and a
 * completeness lemma (every text of that shape is accepted).
 */
module Commands {
  import opened Wrappers
  import opened Text

  const SmsTag: string := "#код"
  const GroupsTag: string := "#группы"
  const PostTag: string := "#пост"

  // ---------------------------------------------------------------------------
  // #код <digits>:  re.match(r"#код\s*(\d{4,6})", text)
  // ---------------------------------------------------------------------------

  /** `text` is the tag, whitespace `w`, the code (4 to 6 digits) and any `rest`. */
  ghost predicate SmsShape(text: string, w: string, code: string, rest: string) {
    text == SmsTag + w + code + rest && All(w, IsSpace) && All(code, IsDigit) && 4 <= |code| <= 6
  }

  /** The greedy `\d{4,6}` took every digit it could, up to six. */
  predicate DigitsExhausted(code: string, rest: string) {
    |code| == 6 || rest == [] || !IsDigit(rest[0])
  }

  /** Group 1 of the SMS-code pattern, or None when the message does not match. */
  function ParseSmsCode(text: string): (code: Option<string>)
    ensures code.Some? ==> SmsTag <= text && 4 <= |code.value| <= 6 && All(code.value, IsDigit)
  {
    if !(SmsTag <= text) then None
    else
      var i := RunEnd(text, |SmsTag|, IsSpace);
      var j := RunEnd(text, i, IsDigit);
      if j - i < 4 then None
      else Some(text[i .. if j - i > 6 then i + 6 else j])
  }

  /** An accepted code is the greedy digit run after the tag and the whitespace. */
  lemma ParseSmsCodeSound(text: string)
    ensures ParseSmsCode(text).Some? ==>
              exists w, rest :: SmsShape(text, w, ParseSmsCode(text).value, rest)
                                && DigitsExhausted(ParseSmsCode(text).value, rest)
  {
    if ParseSmsCode(text).Some? {
      var i := RunEnd(text, |SmsTag|, IsSpace);
      var j := RunEnd(text, i, IsDigit);
      var e := if j - i > 6 then i + 6 else j;
      assert ParseSmsCode(text).value == text[i..e];
      SmsShapeAt(text, i, e);
    }
  }

  /** Cutting a message after its whitespace run and its code gives the SMS shape. */
  lemma SmsShapeAt(text: string, i: nat, e: nat)
    requires SmsTag <= text && |SmsTag| <= i && 4 <= e - i <= 6 && e <= |text|
    requires forall m :: |SmsTag| <= m < i ==> IsSpace(text[m])
    requires forall m :: i <= m < e ==> IsDigit(text[m])
    requires e - i == 6 || e == |text| || !IsDigit(text[e])
    ensures SmsShape(text, text[|SmsTag|..i], text[i..e], text[e..])
    ensures DigitsExhausted(text[i..e], text[e..])
  {
    var t := |SmsTag|;
    CutThrice(text, t, i, e);
    assert text[..t] == SmsTag;
    AllOfSlice(text, t, i, IsSpace);
    AllOfSlice(text, i, e, IsDigit);
  }

  /**
   * Every message of the shape is accepted, and when the code is followed by
   * no further digit (or has six already) the extracted code is exactly it.
   */
  lemma ParseSmsCodeComplete(w: string, code: string, rest: string)
    requires All(w, IsSpace) && All(code, IsDigit) && 4 <= |code| <= 6
    ensures ParseSmsCode(SmsTag + w + code + rest).Some?
    ensures DigitsExhausted(code, rest) ==> ParseSmsCode(SmsTag + w + code + rest) == Some(code)
  {
    var text := SmsTag + w + code + rest;
    var t := |SmsTag|;
    var i := t + |w|;
    var e := i + |code|;
    assert text[..t] == SmsTag;
    assert forall k :: t <= k < i ==> text[k] == w[k - t];
    assert text[i..e] == code;
    assert text[e..] == rest;
    ParseSmsCodeOf(text, |w|, code);
  }

  /** The scan of a message of the SMS shape, given where its pieces sit. */
  lemma ParseSmsCodeOf(text: string, nw: nat, code: string)
    requires var t := |SmsTag|; var i := t + nw; var e := i + |code|;
      && e <= |text| && All(code, IsDigit) && 4 <= |code| <= 6
      && text[..t] == SmsTag
      && (forall m :: t <= m < i ==> IsSpace(text[m]))
      && text[i..e] == code
    ensures ParseSmsCode(text).Some?
    ensures DigitsExhausted(code, text[|SmsTag| + nw + |code|..]) ==> ParseSmsCode(text) == Some(code)
  {
    var t := |SmsTag|;
    var i := t + nw;
    var e := i + |code|;
    assert SmsTag <= text;
    assert forall k :: i <= k < e ==> text[k] == code[k - i];
    DigitIsNotSpace(code[0]);
    RunEndAt(text, t, IsSpace, i);
    RunEndAtLeast(text, i, IsDigit, e);
    if DigitsExhausted(code, text[e..]) && |code| < 6 {
      RunEndAt(text, i, IsDigit, e);
    }
  }

  // ---------------------------------------------------------------------------
  // #группы <links>:  re.match(r"#группы\s+(.+)", text), then re.findall
  // ---------------------------------------------------------------------------

  /**
   * The largest `j` with `lo <= j < hi` whose character is not a line feed:
   * where `.+` starts once the greedy `\s+` has given characters back.
   */
  function LastLineChar(s: string, lo: nat, hi: nat): (j: Option<nat>)
    requires hi <= |s|
    ensures j.Some? ==> lo <= j.value < hi && IsLineChar(s[j.value])
                        && forall k :: j.value < k < hi ==> !IsLineChar(s[k])
    ensures j.None? ==> forall k :: lo <= k < hi ==> !IsLineChar(s[k])
    decreases hi
  {
    if hi <= lo then None
    else if IsLineChar(s[hi - 1]) then Some(hi - 1)
    else LastLineChar(s, lo, hi - 1)
  }

  /** Where group 1 of the groups pattern starts, when the message matches. */
  function GroupsArgStart(text: string): (j: Option<nat>)
    ensures j.Some? ==> GroupsTag <= text && |GroupsTag| < j.value < |text| && IsLineChar(text[j.value])
                        && All(text[|GroupsTag|..j.value], IsSpace)
  {
    if !(GroupsTag <= text) then None
    else
      var t := |GroupsTag|;
      var e := RunEnd(text, t, IsSpace);
      if e == t then None
      else LastLineChar(text, t + 1, if e < |text| then e + 1 else |text|)
  }

  /** Group 1 of the groups pattern: the rest of the first line after the whitespace. */
  function MatchGroupsCommand(text: string): (arg: Option<string>)
    ensures arg.Some? ==> GroupsTag <= text && arg.value != [] && All(arg.value, IsLineChar)
  {
    match GroupsArgStart(text)
    case None => None
    case Some(j) => Some(text[j .. RunEnd(text, j, IsLineChar)])
  }

  /** `text` is the tag, whitespace `w` (at least one), a one-line `arg` and a `rest` that starts a new line. */
  ghost predicate GroupsShape(text: string, w: string, arg: string, rest: string) {
    && text == GroupsTag + w + arg + rest
    && |w| >= 1 && All(w, IsSpace)
    && arg != [] && All(arg, IsLineChar)
    && (rest == [] || rest[0] == '\n')
  }

  /** A matched argument comes from a decomposition of the message of that shape. */
  lemma MatchGroupsSound(text: string)
    ensures MatchGroupsCommand(text).Some? ==>
              exists w, rest :: GroupsShape(text, w, MatchGroupsCommand(text).value, rest)
  {
    if MatchGroupsCommand(text).Some? {
      var t := |GroupsTag|;
      var j := GroupsArgStart(text).value;
      var e := RunEnd(text, j, IsLineChar);
      assert MatchGroupsCommand(text).value == text[j..e];
      CutThrice(text, t, j, e);
      assert text[..t] == GroupsTag;
      assert GroupsShape(text, text[t..j], text[j..e], text[e..]);
    }
  }

  /** Where each piece of a message of the groups shape sits. */
  lemma GroupsPieces(text: string, w: string, arg: string, rest: string)
    requires GroupsShape(text, w, arg, rest)
    ensures var t := |GroupsTag|; var p := t + |w|; var e := p + |arg|;
      && e + |rest| == |text| && t < p < e
      && text[..t] == GroupsTag
      && (forall m :: t <= m < p ==> IsSpace(text[m]))
      && text[p..e] == arg
      && (forall m :: p <= m < e ==> IsLineChar(text[m]))
      && (e == |text| || text[e] == '\n')
  {
    var t := |GroupsTag|;
    var p := t + |w|;
    var e := p + |arg|;
    assert forall m :: t <= m < p ==> text[m] == w[m - t];
    assert forall m :: p <= m < e ==> text[m] == arg[m - p];
    assert e < |text| ==> text[e] == rest[0];
  }

  /**
   * Every message of the shape matches, and Python's greedy `\s+` takes at
   * least as much whitespace as any decomposition of that shape.
   */
  lemma MatchGroupsComplete(text: string, w: string, arg: string, rest: string)
    requires GroupsShape(text, w, arg, rest)
    ensures GroupsArgStart(text).Some? && |GroupsTag| + |w| <= GroupsArgStart(text).value
    ensures MatchGroupsCommand(text).Some?
  {
    GroupsPieces(text, w, arg, rest);
    var t := |GroupsTag|;
    var p := t + |w|;
    assert GroupsTag <= text;
    assert IsLineChar(text[p]);
    RunEndAtLeast(text, t, IsSpace, p);
  }

  /** When the argument starts with a non-space character it is group 1 exactly. */
  lemma MatchGroupsExact(text: string, w: string, arg: string, rest: string)
    requires GroupsShape(text, w, arg, rest)
    requires IsNonSpace(arg[0])
    ensures MatchGroupsCommand(text) == Some(arg)
  {
    GroupsPieces(text, w, arg, rest);
    var t := |GroupsTag|;
    var p := t + |w|;
    assert GroupsTag <= text;
    assert text[p] == arg[0];
    RunEndAt(text, t, IsSpace, p);
    RunEndAt(text, p, IsLineChar, p + |arg|);
  }

  const HttpsGroupPrefix: string := "https://ok.ru/group/"
  const HttpGroupPrefix: string := "http://ok.ru/group/"

  /** A full match of `https?://ok\.ru/group/\d+`. */
  predicate IsGroupLink(u: string) {
    || (HttpsGroupPrefix <= u && |u| > |HttpsGroupPrefix| && All(u[|HttpsGroupPrefix|..], IsDigit))
    || (HttpGroupPrefix <= u && |u| > |HttpGroupPrefix| && All(u[|HttpGroupPrefix|..], IsDigit))
  }

  /** Length of the `https?://ok\.ru/group/` prefix of `s`, 0 when there is none. */
  function GroupPrefixLen(s: string): nat {
    if HttpsGroupPrefix <= s then |HttpsGroupPrefix|
    else if HttpGroupPrefix <= s then |HttpGroupPrefix|
    else 0
  }

  /** Length of the link pattern's match at the start of `s`, 0 when it does not match there. */
  function LinkLen(s: string): (n: nat)
    ensures n <= |s|
    ensures n > 0 ==> IsGroupLink(s[..n]) && (n == |s| || !IsDigit(s[n]))
  {
    var k := GroupPrefixLen(s);
    if k == 0 then 0
    else
      var d := RunEnd(s, k, IsDigit);
      if d == k then 0
      else
        assert s[..d][..k] == s[..k];
        assert forall m :: k <= m < d ==> s[..d][m] == s[m];
        d
  }

  lemma PrefixesDiffer()
    ensures |HttpsGroupPrefix| == 20 && |HttpGroupPrefix| == 19
    ensures HttpsGroupPrefix[4] == 's' && HttpGroupPrefix[4] == ':'
    ensures All(HttpsGroupPrefix, IsNonSpace) && All(HttpGroupPrefix, IsNonSpace)
    ensures All(HttpsGroupPrefix, IsLineChar) && All(HttpGroupPrefix, IsLineChar)
    ensures HttpsGroupPrefix[0] == 'h' && HttpGroupPrefix[0] == 'h'
  {
  }

  /** The pattern matches at the start of `s` with exactly the maximal link there. */
  lemma LinkLenExact(s: string, n: nat)
    requires n <= |s| && IsGroupLink(s[..n]) && (n == |s| || !IsDigit(s[n]))
    ensures LinkLen(s) == n
  {
    PrefixesDiffer();
    var u := s[..n];
    if HttpsGroupPrefix <= u {
      assert s[..20] == u[..20];
      assert forall m :: 20 <= m < n ==> s[m] == u[20..][m - 20];
      RunEndAt(s, 20, IsDigit, n);
    } else {
      assert s[..19] == u[..19];
      assert s[4] == u[4] == ':';
      assert !(HttpsGroupPrefix <= s);
      assert forall m :: 19 <= m < n ==> s[m] == u[19..][m - 19];
      RunEndAt(s, 19, IsDigit, n);
    }
  }

  /** `re.findall(r"https?://ok\.ru/group/\d+", s)`: scan left to right, skipping past each match. */
  function FindGroupLinks(s: string): (links: seq<string>)
    ensures forall k :: 0 <= k < |links| ==> IsGroupLink(links[k])
    decreases |s|
  {
    if s == [] then []
    else
      var n := LinkLen(s);
      if n > 0 then [s[..n]] + FindGroupLinks(s[n..]) else FindGroupLinks(s[1..])
  }

  /**
   * A character no link match can contain: not a digit and not a character
   * of `https?://ok.ru/group/`. Whitespace, `,` and `;` are such characters.
   */
  predicate Separates(c: char) {
    !IsDigit(c) && c !in HttpsGroupPrefix && c !in HttpGroupPrefix
  }

  /** No link starts with a separator. */
  lemma SeparatorFacts(c: char)
    requires Separates(c)
    ensures c != 'h'
  {
    PrefixesDiffer();
  }

  /** Whitespace separates links. */
  lemma SpaceSeparates(c: char)
    requires IsSpace(c)
    ensures Separates(c)
  {
    PrefixesDiffer();
    if IsDigit(c) {
      DigitIsNotSpace(c);
    }
  }

  /** A prefix without `c` is unaffected by what follows a `c`. */
  lemma PrefixBeforeSeparator(pre: string, a: string, c: char, b: string)
    requires c !in pre
    ensures (pre <= a + [c] + b) <==> (pre <= a)
  {
    var s := a + [c] + b;
    if |pre| <= |a| {
      assert s[..|pre|] == a[..|pre|];
    } else {
      assert s[|a|] == c;
      assert pre[|a|] != c;
    }
  }

  /** A link match never reaches across a separator. */
  lemma LinkLenSplit(a: string, c: char, b: string)
    requires Separates(c)
    ensures LinkLen(a + [c] + b) == LinkLen(a)
  {
    PrefixesDiffer();
    SeparatorFacts(c);
    var s := a + [c] + b;
    PrefixBeforeSeparator(HttpsGroupPrefix, a, c, b);
    PrefixBeforeSeparator(HttpGroupPrefix, a, c, b);
    var k := GroupPrefixLen(a);
    assert GroupPrefixLen(s) == k;
    if k != 0 {
      var d := RunEnd(a, k, IsDigit);
      assert forall m :: 0 <= m < |a| ==> s[m] == a[m];
      assert s[|a|] == c;
      RunEndAt(s, k, IsDigit, d);
    }
  }

  /** No link starts at a character other than `h`. */
  lemma NoLinkWithoutH(s: string)
    requires s != [] && s[0] != 'h'
    ensures LinkLen(s) == 0
  {
    PrefixesDiffer();
    assert !(HttpsGroupPrefix <= s) && !(HttpGroupPrefix <= s);
  }

  /** Text without an `h` holds no link. */
  lemma {:induction false} FindGroupLinksWithoutH(s: string)
    requires 'h' !in s
    ensures FindGroupLinks(s) == []
    decreases |s|
  {
    if s != [] {
      NoLinkWithoutH(s);
      assert 'h' !in s[1..] by {
        assert forall k :: 0 <= k < |s[1..]| ==> s[1..][k] == s[k + 1];
      }
      FindGroupLinksWithoutH(s[1..]);
    }
  }

  /**
   * Links separated by a separator (whitespace, a comma, ...) are found
   * independently and in order: the scan of `a`, a separator and `b` finds
   * the links of `a` followed by those of `b`.
   */
  lemma {:induction false} FindGroupLinksSplit(a: string, c: char, b: string)
    requires Separates(c)
    ensures FindGroupLinks(a + [c] + b) == FindGroupLinks(a) + FindGroupLinks(b)
    decreases |a|
  {
    var s := a + [c] + b;
    if a == [] {
      assert s[0] == c && s[1..] == b;
      SeparatorFacts(c);
      NoLinkWithoutH(s);
    } else {
      LinkLenSplit(a, c, b);
      var n := LinkLen(a);
      if n > 0 {
        assert s[..n] == a[..n];
        assert s[n..] == a[n..] + [c] + b;
        FindGroupLinksSplit(a[n..], c, b);
      } else {
        assert s[1..] == a[1..] + [c] + b;
        FindGroupLinksSplit(a[1..], c, b);
      }
    }
  }

  /** A lone link is found as itself. */
  lemma FindSingleLink(u: string)
    requires IsGroupLink(u)
    ensures FindGroupLinks(u) == [u]
  {
    assert u[..|u|] == u;
    LinkLenExact(u, |u|);
    assert u[|u|..] == [];
  }

  /** Two links with a separator between them, e.g. pasted as `u,v`, are both found, in order. */
  lemma FindTwoLinks(u: string, c: char, v: string)
    requires IsGroupLink(u) && IsGroupLink(v) && Separates(c)
    ensures FindGroupLinks(u + [c] + v) == [u, v]
  {
    FindSingleLink(u);
    FindSingleLink(v);
    FindGroupLinksSplit(u, c, v);
  }

  /** Two links pasted with only a comma between them are both found, in order. */
  lemma FindCommaSeparatedLinks(u: string, v: string)
    requires IsGroupLink(u) && IsGroupLink(v)
    ensures FindGroupLinks(u + [','] + v) == [u, v]
  {
    assert Separates(',');
    FindTwoLinks(u, ',', v);
  }

  /** Links written one after another, separated by single spaces. */
  function JoinLinks(links: seq<string>): string {
    if |links| == 0 then ""
    else if |links| == 1 then links[0]
    else links[0] + " " + JoinLinks(links[1..])
  }

  /** Scanning space-separated links gives back the list: order and duplicates are kept. */
  lemma {:induction false} FindGroupLinksJoin(links: seq<string>)
    requires forall k :: 0 <= k < |links| ==> IsGroupLink(links[k])
    ensures FindGroupLinks(JoinLinks(links)) == links
  {
    if |links| == 1 {
      FindSingleLink(links[0]);
    } else if |links| > 1 {
      var head, tail := links[0], links[1..];
      var rest := JoinLinks(tail);
      assert FindGroupLinks(head) == [head] by {
        FindSingleLink(head);
      }
      assert FindGroupLinks(rest) == tail by {
        FindGroupLinksJoin(tail);
      }
      assert JoinLinks(links) == head + [' '] + rest;
      assert FindGroupLinks(head + [' '] + rest) == FindGroupLinks(head) + FindGroupLinks(rest) by {
        SpaceSeparates(' ');
        FindGroupLinksSplit(head, ' ', rest);
      }
      assert links == [head] + tail;
    }
  }

  /** A link is one line and starts with `h`. */
  lemma GroupLinkChars(u: string)
    requires IsGroupLink(u)
    ensures All(u, IsLineChar) && u[0] == 'h'
  {
    PrefixesDiffer();
    if HttpsGroupPrefix <= u {
      assert forall k :: 0 <= k < 20 ==> u[k] == HttpsGroupPrefix[k];
      assert forall k :: 20 <= k < |u| ==> u[k] == u[20..][k - 20];
    } else {
      assert forall k :: 0 <= k < 19 ==> u[k] == HttpGroupPrefix[k];
      assert forall k :: 19 <= k < |u| ==> u[k] == u[19..][k - 19];
    }
  }

  lemma {:induction false} JoinLinksChars(links: seq<string>)
    requires forall k :: 0 <= k < |links| ==> IsGroupLink(links[k])
    ensures All(JoinLinks(links), IsLineChar)
    ensures links != [] ==> JoinLinks(links) != [] && JoinLinks(links)[0] == 'h'
  {
    if |links| >= 1 {
      GroupLinkChars(links[0]);
    }
    if |links| > 1 {
      JoinLinksChars(links[1..]);
      var j := JoinLinks(links);
      var rest := JoinLinks(links[1..]);
      assert j == links[0] + " " + rest;
      assert forall k :: 0 <= k < |links[0]| ==> j[k] == links[0][k];
      assert j[|links[0]|] == ' ';
      assert forall k :: |links[0]| < k < |j| ==> j[k] == rest[k - |links[0]| - 1];
    }
  }

  /** Outcome of the groups command. */
  datatype GroupsCommand = GroupsBadFormat | GroupsNoLinks | GroupsFound(links: seq<string>)

  /** The groups handler's parsing: the anchored match, then every link in group 1. */
  function ParseGroups(text: string): (r: GroupsCommand)
    ensures !r.GroupsBadFormat? ==> GroupsTag <= text
    ensures r.GroupsFound? ==> r.links != [] && forall k :: 0 <= k < |r.links| ==> IsGroupLink(r.links[k])
  {
    match MatchGroupsCommand(text)
    case None => GroupsBadFormat
    case Some(arg) =>
      var links := FindGroupLinks(arg);
      if links == [] then GroupsNoLinks else GroupsFound(links)
  }

  /** The command as the operator is told to write it is read back as exactly its links. */
  lemma ParseGroupsJoin(links: seq<string>)
    requires links != [] && forall k :: 0 <= k < |links| ==> IsGroupLink(links[k])
    ensures ParseGroups(GroupsTag + " " + JoinLinks(links)) == GroupsFound(links)
  {
    MatchGroupsJoin(links);
    FindGroupLinksJoin(links);
    ParseGroupsOfArg(GroupsTag + " " + JoinLinks(links), JoinLinks(links));
  }

  lemma MatchGroupsJoin(links: seq<string>)
    requires links != [] && forall k :: 0 <= k < |links| ==> IsGroupLink(links[k])
    ensures MatchGroupsCommand(GroupsTag + " " + JoinLinks(links)) == Some(JoinLinks(links))
  {
    var j := JoinLinks(links);
    JoinLinksChars(links);
    assert All(j, IsLineChar) && j != [] && j[0] == 'h';
    assert IsNonSpace(j[0]) by {
      PrefixesDiffer();
    }
    MatchGroupsLine(j);
  }

  /** A one-line argument after a single space is group 1 exactly. */
  lemma MatchGroupsLine(arg: string)
    requires arg != [] && All(arg, IsLineChar) && IsNonSpace(arg[0])
    ensures MatchGroupsCommand(GroupsTag + " " + arg) == Some(arg)
  {
    var text := GroupsTag + " " + arg;
    assert text == GroupsTag + " " + arg + "";
    MatchGroupsExact(text, " ", arg, "");
  }

  /**
   * Only whitespace after the tag: a single space, or a space and a line
   * feed, does not match, since `\s+` takes the first character and no
   * character other than a line feed follows it. Two spaces match with the
   * second as group 1, which holds no link.
   */
  lemma GroupsWhitespaceOnly()
    ensures ParseGroups(GroupsTag + " ") == GroupsBadFormat
    ensures ParseGroups(GroupsTag + " \n") == GroupsBadFormat
    ensures ParseGroups(GroupsTag + "  ") == GroupsNoLinks
  {
    var t := |GroupsTag|;
    var s1, s2, s3 := GroupsTag + " ", GroupsTag + " \n", GroupsTag + "  ";
    assert GroupsTag <= s1 && GroupsTag <= s2 && GroupsTag <= s3;
    assert s1[t] == ' ' && s2[t] == ' ' && s2[t + 1] == '\n' && s3[t] == ' ' && s3[t + 1] == ' ';
    RunEndAt(s1, t, IsSpace, |s1|);
    RunEndAt(s2, t, IsSpace, |s2|);
    RunEndAt(s3, t, IsSpace, |s3|);
    assert GroupsArgStart(s3) == Some(t + 1);
    RunEndAt(s3, t + 1, IsLineChar, |s3|);
    assert MatchGroupsCommand(s3) == Some(s3[t + 1..|s3|]);
    assert s3[t + 1..|s3|] == " ";
    assert FindGroupLinks(" ") == [] by {
      NoLinkWithoutH(" ");
    }
  }

  lemma ParseGroupsOfArg(text: string, arg: string)
    requires MatchGroupsCommand(text) == Some(arg) && FindGroupLinks(arg) != []
    ensures ParseGroups(text) == GroupsFound(FindGroupLinks(arg))
  {
  }

  // ---------------------------------------------------------------------------
  // #пост <link> <caption>:  re.match(r"#пост\s+(https?://\S+)\s+([\s\S]+)", text)
  // ---------------------------------------------------------------------------

  /** A full match of `https?://\S+`. */
  predicate IsVideoUrl(url: string) {
    (("https://" <= url && |url| > 8) || ("http://" <= url && |url| > 7)) && All(url, IsNonSpace)
  }

  /** Length of the `https?://` at the start of `s`, 0 when there is none. */
  function SchemeLen(s: string): nat {
    if "https://" <= s then 8 else if "http://" <= s then 7 else 0
  }

  /** The `https?://` prefix holds no whitespace. */
  lemma SchemeNonSpace(s: string)
    requires SchemeLen(s) > 0
    ensures SchemeLen(s) <= |s| && forall m :: 0 <= m < SchemeLen(s) ==> IsNonSpace(s[m])
  {
    if "https://" <= s {
      assert s[..8] == "https://";
    } else {
      assert s[..7] == "http://";
    }
  }

  /** A scheme followed by at least one non-whitespace character is a link. */
  lemma SchemeThenNonSpace(text: string, a: nat, u: nat)
    requires a < u <= |text| && SchemeLen(text[a..]) > 0 && a + SchemeLen(text[a..]) < u
    requires forall m :: a + SchemeLen(text[a..]) <= m < u ==> IsNonSpace(text[m])
    ensures IsVideoUrl(text[a..u])
  {
    var s := text[a..];
    var url := text[a..u];
    var k := SchemeLen(s);
    SchemeNonSpace(s);
    assert forall m :: 0 <= m < |url| ==> url[m] == s[m] == text[a + m];
    assert All(url, IsNonSpace);
    if "https://" <= s {
      assert url[..8] == s[..8];
    } else {
      assert url[..7] == s[..7];
    }
  }

  /** A link and everything it prefixes start with the same scheme. */
  lemma SchemeOfPrefix(url: string, s: string)
    requires url <= s && IsVideoUrl(url)
    ensures SchemeLen(s) == SchemeLen(url) && 0 < SchemeLen(url) < |url|
  {
    if "https://" <= url {
      assert s[..8] == url[..8];
    } else {
      assert s[..7] == url[..7];
      assert s[4] == url[4] == ':';
    }
  }

  /**
   * Where the link `https?://\S+` that starts at `a` ends; `a` itself when
   * no link starts there.
   */
  function UrlEnd(text: string, a: nat): (u: nat)
    requires a <= |text|
    ensures u == a || (a < u <= |text| && IsVideoUrl(text[a..u]) && (u == |text| || IsSpace(text[u])))
  {
    var k := SchemeLen(text[a..]);
    if k == 0 then a
    else
      SchemeNonSpace(text[a..]);
      var u := RunEnd(text, a + k, IsNonSpace);
      if u == a + k then a
      else
        SchemeThenNonSpace(text, a, u);
        u
  }

  /** A link followed by whitespace or the end of the message is scanned exactly. */
  lemma UrlEndExact(text: string, a: nat, url: string)
    requires a + |url| <= |text| && text[a..a + |url|] == url && IsVideoUrl(url)
    requires a + |url| == |text| || IsSpace(text[a + |url|])
    ensures UrlEnd(text, a) == a + |url|
  {
    var u := a + |url|;
    SchemeOfPrefix(url, text[a..]);
    var k := SchemeLen(url);
    assert forall m :: a + k <= m < u ==> text[m] == url[m - a];
    RunEndAt(text, a + k, IsNonSpace, u);
  }

  /** The two groups of the post pattern. */
  datatype PostCommand = PostCommand(videoUrl: string, caption: string)

  /** Groups 1 and 2 of the post pattern, or None when the message does not match. */
  function ParsePost(text: string): (r: Option<PostCommand>)
    ensures r.Some? ==> PostTag <= text && IsVideoUrl(r.value.videoUrl) && r.value.caption != []
  {
    if !(PostTag <= text) then None
    else
      var t := |PostTag|;
      var a := RunEnd(text, t, IsSpace);
      var u := UrlEnd(text, a);
      if a == t || u == a then None
      else
        var v := RunEnd(text, u, IsSpace);
        if v == u then None
        else if v < |text| then Some(PostCommand(text[a..u], text[v..]))
        else if v - u >= 2 then Some(PostCommand(text[a..u], text[v - 1..]))
        else None
  }

  /** `text` is the tag, whitespace `w`, the link, whitespace `v` and a non-empty caption. */
  ghost predicate PostShape(text: string, w: string, url: string, v: string, caption: string) {
    && text == PostTag + w + url + v + caption
    && |w| >= 1 && All(w, IsSpace)
    && IsVideoUrl(url)
    && |v| >= 1 && All(v, IsSpace)
    && |caption| >= 1
  }

  /** An accepted post comes from a decomposition of the message of that shape. */
  lemma ParsePostSound(text: string)
    ensures ParsePost(text).Some? ==>
              exists w, v :: PostShape(text, w, ParsePost(text).value.videoUrl, v, ParsePost(text).value.caption)
  {
    var r := ParsePost(text);
    if r.Some? {
      var t := |PostTag|;
      var a := RunEnd(text, t, IsSpace);
      var u := UrlEnd(text, a);
      var v := RunEnd(text, u, IsSpace);
      var c := if v < |text| then v else v - 1;
      assert r.value == PostCommand(text[a..u], text[c..]);
      PostShapeAt(text, a, u, c);
    }
  }

  /** Cutting a message at the ends of its whitespace and link runs gives the post shape. */
  lemma PostShapeAt(text: string, a: nat, u: nat, c: nat)
    requires PostTag <= text && |PostTag| < a < u < c < |text|
    requires forall m :: |PostTag| <= m < a ==> IsSpace(text[m])
    requires IsVideoUrl(text[a..u])
    requires forall m :: u <= m < c ==> IsSpace(text[m])
    ensures PostShape(text, text[|PostTag|..a], text[a..u], text[u..c], text[c..])
  {
    var t := |PostTag|;
    assert text == text[..t] + text[t..a] + text[a..u] + text[u..c] + text[c..] by {
      CutThrice(text, t, a, u);
      CutThrice(text[u..], 0, c - u, c - u);
    }
    assert text[..t] == PostTag;
    AllOfSlice(text, t, a, IsSpace);
    AllOfSlice(text, u, c, IsSpace);
  }

  /**
   * Every message of the shape is accepted with exactly that link; when the
   * caption starts with a non-space character it is group 2 exactly.
   */
  lemma ParsePostComplete(w: string, url: string, v: string, caption: string)
    requires PostShape(PostTag + w + url + v + caption, w, url, v, caption)
    ensures ParsePost(PostTag + w + url + v + caption).Some?
    ensures ParsePost(PostTag + w + url + v + caption).value.videoUrl == url
    ensures IsNonSpace(caption[0]) ==>
              ParsePost(PostTag + w + url + v + caption) == Some(PostCommand(url, caption))
  {
    var text := PostTag + w + url + v + caption;
    PostPieces(text, w, url, v, caption);
    ParsePostOf(text, |w|, url, |v|);
  }

  /** Where each piece of a message of the post shape sits. */
  lemma PostPieces(text: string, w: string, url: string, v: string, caption: string)
    requires text == PostTag + w + url + v + caption
    ensures var t := |PostTag|; var a := t + |w|; var u := a + |url|; var e := u + |v|;
      && e + |caption| == |text|
      && text[..t] == PostTag
      && (forall m :: t <= m < a ==> text[m] == w[m - t])
      && text[a..u] == url
      && (forall m :: u <= m < e ==> text[m] == v[m - u])
      && text[e..] == caption
  {
  }

  /** The scan of a message of the post shape, given where its pieces sit. */
  lemma ParsePostOf(text: string, nw: nat, url: string, nv: nat)
    requires var t := |PostTag|; var a := t + nw; var u := a + |url|; var e := u + nv;
      && e < |text| && nw >= 1 && nv >= 1 && IsVideoUrl(url)
      && text[..t] == PostTag
      && (forall m :: t <= m < a ==> IsSpace(text[m]))
      && text[a..u] == url
      && (forall m :: u <= m < e ==> IsSpace(text[m]))
    ensures ParsePost(text).Some? && ParsePost(text).value.videoUrl == url
    ensures var e := |PostTag| + nw + |url| + nv;
      IsNonSpace(text[e]) ==> ParsePost(text) == Some(PostCommand(url, text[e..]))
  {
    var t := |PostTag|;
    var a := t + nw;
    var u := a + |url|;
    var e := u + nv;
    assert PostTag <= text;
    PostLinkBounds(text, a, url);
    RunEndAtLeast(text, u, IsSpace, e);
    var v := RunEnd(text, u, IsSpace);
    ParsePostByScans(text, a, u, v);
    if IsNonSpace(text[e]) {
      RunEndAt(text, u, IsSpace, e);
    }
  }

  /** After the tag and whitespace up to `a`, the link scan starts at `a` and ends after `url`. */
  lemma PostLinkBounds(text: string, a: nat, url: string)
    requires |PostTag| < a && a + |url| <= |text| && IsVideoUrl(url) && text[a..a + |url|] == url
    requires forall m :: |PostTag| <= m < a ==> IsSpace(text[m])
    requires a + |url| == |text| || IsSpace(text[a + |url|])
    ensures RunEnd(text, |PostTag|, IsSpace) == a && UrlEnd(text, a) == a + |url|
  {
    assert text[a] == url[0];
    RunEndAt(text, |PostTag|, IsSpace, a);
    UrlEndExact(text, a, url);
  }

  /**
   * Only whitespace after the link: with two or more characters of it the
   * backtracking `\s+` gives the last one back as the caption; with one,
   * the message does not match.
   */
  lemma ParsePostWhitespaceTail(w: string, url: string, v: string)
    requires |w| >= 1 && All(w, IsSpace) && IsVideoUrl(url) && |v| >= 1 && All(v, IsSpace)
    ensures ParsePost(PostTag + w + url + v) ==
              if |v| >= 2 then Some(PostCommand(url, [v[|v| - 1]])) else None
  {
    var text := PostTag + w + url + v;
    assert text == PostTag + w + url + v + "";
    PostPieces(text, w, url, v, "");
    assert PostTag <= text;
    ParsePostTailOf(text, |PostTag| + |w|, url);
    assert text[|text| - 1] == v[|v| - 1];
  }

  /** The scan of a message whose link, at `a`, is followed by whitespace only. */
  lemma ParsePostTailOf(text: string, a: nat, url: string)
    requires PostTag <= text && |PostTag| < a && a + |url| < |text| && IsVideoUrl(url)
    requires forall m :: |PostTag| <= m < a ==> IsSpace(text[m])
    requires text[a..a + |url|] == url
    requires forall m :: a + |url| <= m < |text| ==> IsSpace(text[m])
    ensures ParsePost(text) ==
              if |text| - (a + |url|) >= 2 then Some(PostCommand(url, [text[|text| - 1]])) else None
  {
    var u := a + |url|;
    PostLinkBounds(text, a, url);
    RunEndAt(text, u, IsSpace, |text|);
    ParsePostByScans(text, a, u, |text|);
    assert text[|text| - 1..] == [text[|text| - 1]];
  }

  /** `ParsePost` once the whitespace, link and whitespace scans are known. */
  lemma ParsePostByScans(text: string, a: nat, u: nat, v: nat)
    requires PostTag <= text && |PostTag| < a <= |text|
    requires RunEnd(text, |PostTag|, IsSpace) == a && UrlEnd(text, a) == u && a < u <= |text|
    requires RunEnd(text, u, IsSpace) == v && u < v
    ensures ParsePost(text) ==
              if v < |text| then Some(PostCommand(text[a..u], text[v..]))
              else if v - u >= 2 then Some(PostCommand(text[a..u], text[v - 1..]))
              else None
  {
  }
}
