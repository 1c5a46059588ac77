/**
 * The pure checks inside `OKSession` (okru_post_bot.py): whether the page
 * after login asks for an SMS code, whether the page after the code was
 * submitted is the user's main page, and the address a group post is
 * written at. The browser reads the page; these functions decide.
 */
module Pages {
  import opened Wrappers
  import opened Text
  import Commands

  /** `str.lower()` on one character, for the letters the checks look for. */
  function Lower(c: char): char {
    if 'A' <= c <= 'Z' then (c as int + 32) as char else c
  }

  function LowerAll(s: string): (r: string)
    ensures |r| == |s| && forall k :: 0 <= k < |s| ==> r[k] == Lower(s[k])
  {
    seq(|s|, k requires 0 <= k < |s| => Lower(s[k]))
  }

  /**
   * `login`: SMS verification is needed when the lower-cased body text
   * contains `sms` or an element with id `smsCode` is on the page.
   */
  predicate SmsNeeded(bodyText: string, hasSmsCodeElement: bool)
    ensures hasSmsCodeElement ==> SmsNeeded(bodyText, hasSmsCodeElement)
    ensures |bodyText| < 3 ==> (SmsNeeded(bodyText, hasSmsCodeElement) <==> hasSmsCodeElement)
  {
    Contains(LowerAll(bodyText), "sms") || hasSmsCodeElement
  }

  /** `sms` in any mix of upper and lower case starts at position `i` of `s`. */
  predicate SmsAt(s: string, i: nat) {
    i + 3 <= |s| && Lower(s[i]) == 's' && Lower(s[i + 1]) == 'm' && Lower(s[i + 2]) == 's'
  }

  /** The SMS test is a case-insensitive search for `sms`, or the `smsCode` element. */
  lemma SmsNeededIff(bodyText: string, hasSmsCodeElement: bool)
    ensures SmsNeeded(bodyText, hasSmsCodeElement) <==>
              hasSmsCodeElement || exists i :: SmsAt(bodyText, i)
  {
    var l := LowerAll(bodyText);
    if exists i :: OccursAt(l, "sms", i) {
      var i: nat :| OccursAt(l, "sms", i);
      SmsAtLowered(bodyText, i);
    }
    if exists i :: SmsAt(bodyText, i) {
      var i: nat :| SmsAt(bodyText, i);
      SmsAtLowered(bodyText, i);
    }
  }

  /** One position at a time: `sms` occurs in the lower-cased text exactly where `SmsAt` holds. */
  lemma SmsAtLowered(s: string, i: nat)
    ensures OccursAt(LowerAll(s), "sms", i) <==> SmsAt(s, i)
  {
    var l := LowerAll(s);
    if i + 3 <= |s| {
      assert l[i..i + 3] == [l[i], l[i + 1], l[i + 2]];
    }
  }

  /**
   * `submit_sms`: the code was accepted when the body's `data-l` attribute
   * contains `userMain`; a missing attribute reads as the empty string.
   */
  predicate SmsSucceeded(dataL: Option<string>)
    ensures SmsSucceeded(dataL) ==> dataL.Some? && |dataL.value| >= 8
  {
    Contains(dataL.GetOr(""), "userMain")
  }

  lemma SmsSucceededIff(dataL: Option<string>)
    ensures dataL.None? ==> !SmsSucceeded(dataL)
    ensures dataL.Some? ==> (SmsSucceeded(dataL) <==> exists i :: OccursAt(dataL.value, "userMain", i))
  {
    if dataL.None? {
      assert forall i :: !OccursAt("", "userMain", i);
    }
  }

  /** `s.rstrip('/')`. */
  function StripTrailingSlashes(s: string): (r: string)
    ensures r <= s
    ensures r == [] || r[|r| - 1] != '/'
    ensures forall k :: |r| <= k < |s| ==> s[k] == '/'
  {
    if s != [] && s[|s| - 1] == '/' then StripTrailingSlashes(s[..|s| - 1]) else s
  }

  /** The three properties above pin the stripped string down. */
  lemma StripTrailingSlashesUnique(s: string, r: string)
    requires r <= s && (r == [] || r[|r| - 1] != '/')
    requires forall k :: |r| <= k < |s| ==> s[k] == '/'
    ensures StripTrailingSlashes(s) == r
  {
    var q := StripTrailingSlashes(s);
    assert |q| == |r|;
    assert q == s[..|q|] && r == s[..|r|];
  }

  /** Stripping is idempotent: the stripped address never ends in `/`. */
  lemma StripTrailingSlashesIdempotent(s: string)
    ensures StripTrailingSlashes(StripTrailingSlashes(s)) == StripTrailingSlashes(s)
  {
    var r := StripTrailingSlashes(s);
    StripTrailingSlashesUnique(r, r);
  }

  /** `post_to_group`: the page a post to `groupUrl` is written on. */
  function PostUrl(groupUrl: string): (r: string)
    ensures |r| >= 5 && r[|r| - 5..] == "/post"
    ensures r[..|r| - 5] <= groupUrl && (|r| == 5 || r[|r| - 6] != '/')
    ensures forall k :: |r| - 5 <= k < |groupUrl| ==> groupUrl[k] == '/'
  {
    StripTrailingSlashes(groupUrl) + "/post"
  }

  /** `n` slashes. */
  function Slashes(n: nat): (s: string)
    ensures |s| == n && forall k :: 0 <= k < n ==> s[k] == '/'
  {
    seq(n, _ => '/')
  }

  /** Trailing slashes on the group address make no difference to where the post goes. */
  lemma PostUrlIgnoresTrailingSlashes(groupUrl: string, n: nat)
    ensures PostUrl(groupUrl + Slashes(n)) == PostUrl(groupUrl)
  {
    var s := groupUrl + Slashes(n);
    var r := StripTrailingSlashes(groupUrl);
    assert forall k :: |r| <= k < |s| ==> s[k] == '/' by {
      forall k | |r| <= k < |s|
        ensures s[k] == '/'
      {
        if k >= |groupUrl| {
          assert s[k] == Slashes(n)[k - |groupUrl|];
        }
      }
    }
    assert r <= s;
    StripTrailingSlashesUnique(s, r);
  }

  /** A link found by the groups command ends in a digit, so its post page is the link plus `/post`. */
  lemma PostUrlOfGroupLink(u: string)
    requires Commands.IsGroupLink(u)
    ensures PostUrl(u) == u + "/post"
  {
    assert u[|u| - 1] != '/' by {
      Commands.PrefixesDiffer();
      if Commands.HttpsGroupPrefix <= u {
        assert !(Commands.HttpGroupPrefix <= u) by {
          assert u[4] == 's';
        }
        assert |u| > 20 && All(u[20..], IsDigit);
        assert u[|u| - 1] == u[20..][|u| - 21];
      } else {
        assert |u| > 19 && All(u[19..], IsDigit);
        assert u[|u| - 1] == u[19..][|u| - 20];
      }
    }
    StripTrailingSlashesUnique(u, u);
  }
}
