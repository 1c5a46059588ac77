/**
 * Loading of the posting profiles from the process environment at start-up
 * (okru_post_bot.py, module level): numbered profiles 1..9 first, the
 * unnumbered profile as a fallback, and the abort when nothing usable is set.
 */
module Profiles {
  import opened Wrappers

  /** The process environment: a variable that is not set is not a key. */
  type Env = map<string, string>

  /** One account the bot can post as. */
  datatype Profile = Profile(email: string, password: string, person: string)

  /** `os.getenv(key)` is truthy: the variable is set and not empty. */
  predicate IsSet(env: Env, key: string) {
    key in env && env[key] != ""
  }

  /** `f"{name}_{i}"` for a one-digit index. */
  function Numbered(name: string, i: nat): string
    requires 1 <= i <= 9
  {
    name + "_" + [('0' as int + i) as char]
  }

  /** `OK_EMAIL_i`, `OK_PASSWORD_i` and `OK_PERSON_i` are all set. */
  predicate CompleteAt(env: Env, i: nat)
    requires 1 <= i <= 9
  {
    IsSet(env, Numbered("OK_EMAIL", i)) && IsSet(env, Numbered("OK_PASSWORD", i))
    && IsSet(env, Numbered("OK_PERSON", i))
  }

  function ProfileAt(env: Env, i: nat): Profile
    requires 1 <= i <= 9 && CompleteAt(env, i)
  {
    Profile(env[Numbered("OK_EMAIL", i)], env[Numbered("OK_PASSWORD", i)], env[Numbered("OK_PERSON", i)])
  }

  /** `OK_EMAIL`, `OK_PASSWORD` and `OK_PERSON` are all set. */
  predicate FallbackComplete(env: Env) {
    IsSet(env, "OK_EMAIL") && IsSet(env, "OK_PASSWORD") && IsSet(env, "OK_PERSON")
  }

  function FallbackProfile(env: Env): Profile
    requires FallbackComplete(env)
  {
    Profile(env["OK_EMAIL"], env["OK_PASSWORD"], env["OK_PERSON"])
  }

  /** Email, password and person are all non-empty. */
  predicate Usable(p: Profile) {
    p.email != "" && p.password != "" && p.person != ""
  }

  /** The indices among 1..n whose three variables are all set, in increasing order. */
  function CompleteIndices(env: Env, n: nat): seq<nat>
    requires n <= 9
  {
    if n == 0 then []
    else CompleteIndices(env, n - 1) + (if CompleteAt(env, n) then [n] else [])
  }

  /** The profile list after the numbered loop has seen indices 1..n. */
  function NumberedProfiles(env: Env, n: nat): (ps: seq<Profile>)
    requires n <= 9
    ensures |ps| <= n && forall k :: 0 <= k < |ps| ==> Usable(ps[k])
  {
    if n == 0 then []
    else NumberedProfiles(env, n - 1) + (if CompleteAt(env, n) then [ProfileAt(env, n)] else [])
  }

  /** `PROFILES` once the module has been loaded. */
  function ConfiguredProfiles(env: Env): (ps: seq<Profile>)
    ensures |ps| <= 9 && forall k :: 0 <= k < |ps| ==> Usable(ps[k])
    ensures ps == [] <==> NumberedProfiles(env, 9) == [] && !FallbackComplete(env)
  {
    var numbered := NumberedProfiles(env, 9);
    if numbered != [] then numbered
    else if FallbackComplete(env) then [FallbackProfile(env)]
    else []
  }

  /** The loop over `range(1, 10)` and the fallback that follows it. */
  method LoadProfiles(env: Env) returns (profiles: seq<Profile>)
    ensures profiles == ConfiguredProfiles(env)
    ensures |profiles| <= 9
    ensures NumberedProfiles(env, 9) != [] ==> profiles == NumberedProfiles(env, 9)
    ensures NumberedProfiles(env, 9) == [] ==> |profiles| <= 1
  {
    profiles := [];
    for i := 1 to 10
      invariant profiles == NumberedProfiles(env, i - 1)
    {
      if IsSet(env, Numbered("OK_EMAIL", i)) && IsSet(env, Numbered("OK_PASSWORD", i))
        && IsSet(env, Numbered("OK_PERSON", i))
      {
        profiles := profiles + [Profile(env[Numbered("OK_EMAIL", i)], env[Numbered("OK_PASSWORD", i)],
                                        env[Numbered("OK_PERSON", i)])];
      }
    }
    if profiles == [] {
      if IsSet(env, "OK_EMAIL") && IsSet(env, "OK_PASSWORD") && IsSet(env, "OK_PERSON") {
        profiles := [Profile(env["OK_EMAIL"], env["OK_PASSWORD"], env["OK_PERSON"])];
      }
    }
    NumberedProfilesIndexed(env, 9);
  }

  /**
   * The numbered loop keeps index order: its k-th profile is the one of the
   * k-th complete index, and the complete indices are increasing and exactly
   * the indices in 1..n whose three variables are set.
   */
  lemma {:induction false} NumberedProfilesIndexed(env: Env, n: nat)
    requires n <= 9
    ensures |NumberedProfiles(env, n)| == |CompleteIndices(env, n)| <= n
    ensures forall k :: 0 <= k < |CompleteIndices(env, n)| ==>
              1 <= CompleteIndices(env, n)[k] <= n && CompleteAt(env, CompleteIndices(env, n)[k])
              && NumberedProfiles(env, n)[k] == ProfileAt(env, CompleteIndices(env, n)[k])
    ensures forall k, l :: 0 <= k < l < |CompleteIndices(env, n)| ==>
              CompleteIndices(env, n)[k] < CompleteIndices(env, n)[l]
    ensures forall i :: 1 <= i <= n ==> (CompleteAt(env, i) <==> i in CompleteIndices(env, n))
  {
    if n > 0 {
      NumberedProfilesIndexed(env, n - 1);
    }
  }

  /** The unnumbered profile is read only when no numbered one was loaded, and adds at most one. */
  lemma FallbackOnlyWhenNoNumbered(env: Env)
    ensures (exists i :: 1 <= i <= 9 && CompleteAt(env, i)) ==> ConfiguredProfiles(env) == NumberedProfiles(env, 9)
    ensures (forall i :: 1 <= i <= 9 ==> !CompleteAt(env, i)) ==>
              ConfiguredProfiles(env) == (if FallbackComplete(env) then [FallbackProfile(env)] else [])
  {
    NumberedProfilesIndexed(env, 9);
    var indices := CompleteIndices(env, 9);
    if indices == [] {
      assert NumberedProfiles(env, 9) == [];
      assert forall i :: 1 <= i <= 9 ==> !CompleteAt(env, i);
    } else {
      assert CompleteAt(env, indices[0]) && 1 <= indices[0] <= 9;
      assert NumberedProfiles(env, 9) != [];
    }
  }

  /** The settings the bot cannot start without. */
  datatype Config = Config(token: string, externalUrl: string, profiles: seq<Profile>)

  /** The `RuntimeError` raised at start-up. */
  datatype StartupError = MissingSettings

  /** Module load: profiles, then the token and external URL, then the abort check. */
  method Startup(env: Env) returns (r: Result<Config, StartupError>)
    ensures r.Success? <==>
              IsSet(env, "TELEGRAM_BOT_TOKEN") && IsSet(env, "RENDER_EXTERNAL_URL") && ConfiguredProfiles(env) != []
    ensures r.Success? ==>
              r.value == Config(env["TELEGRAM_BOT_TOKEN"], env["RENDER_EXTERNAL_URL"], ConfiguredProfiles(env))
  {
    var profiles := LoadProfiles(env);
    var token := if "TELEGRAM_BOT_TOKEN" in env then Some(env["TELEGRAM_BOT_TOKEN"]) else None;
    var url := if "RENDER_EXTERNAL_URL" in env then Some(env["RENDER_EXTERNAL_URL"]) else None;
    if token.GetOr("") == "" || profiles == [] || url.GetOr("") == "" {
      return Failure(MissingSettings);
    }
    r := Success(Config(token.value, url.value, profiles));
  }
}
