/**
 * Properties of the user cache and the presence patch of state.c that
 * relate several calls: get-or-create followed by a lookup or by a second
 * get-or-create, and presence patches applied in sequence.
 */
module StateFacts {
  import opened Wrappers
  import opened DiscordState

  /** After a successful state_set_user, state_get_user on the same id returns the same instance. */
  lemma SetUserThenGetUser(state: Option<State>, data: Option<JsonObject>, built: Option<User>, stored: bool)
    requires ConstructedFrom(data, built) && Consistent(state)
    ensures var r := SetUser(state, data, built, stored);
            r.user.Some? ==> data.Some? && IdOf(data.value).Some? && GetUser(r.state, IdOf(data.value).value) == r.user
  {
  }

  /**
   * Get-or-create is idempotent: once a call has returned a user, a second
   * call with the same data returns that same instance and leaves the cache
   * as it was, whatever user_init and map_set would do the second time.
   */
  lemma SetUserTwiceHitsCache(state: Option<State>, data: Option<JsonObject>, built: Option<User>, stored: bool,
                              again: Option<User>, storedAgain: bool)
    requires ConstructedFrom(data, built) && ConstructedFrom(data, again)
    ensures var first := SetUser(state, data, built, stored);
            first.user.Some? ==> SetUser(first.state, data, again, storedAgain) == first
  {
  }

  /** A cache miss whose construction or insertion fails leaves no entry behind. */
  lemma FailedMissCachesNothing(s: State, data: JsonObject, built: Option<User>, stored: bool)
    requires ConstructedFrom(Some(data), built)
    requires IdOf(data).Some? && IdOf(data).value !in s.users
    requires built.None? || !stored
    ensures SetUser(Some(s), Some(data), built, stored) == UserLookup(Some(s), None)
    ensures GetUser(SetUser(Some(s), Some(data), built, stored).state, IdOf(data).value).None?
  {
  }

  /** Patching with every field absent keeps a stored presence; on a fresh state it stores four absent fields. */
  lemma EmptyPatchKeepsPresence(s: State)
    ensures var r := SetPresence(Some(s), EmptyPresence);
            r.ok && r.state.value.presence == Some(s.presence.GetOr(EmptyPresence))
    ensures s.presence.Some? ==> SetPresence(Some(s), EmptyPresence) == StateUpdate(true, Some(s))
  {
  }

  /** Two patches in a row act as one patch: the later one's fields, falling back to the earlier one's. */
  lemma PatchesCompose(s: State, first: Presence, second: Presence)
    ensures var a := SetPresence(Some(s), first);
            SetPresence(a.state, second) == SetPresence(Some(s), Overlay(second, first))
  {
  }

  /** A patch that sets only afk keeps since, activities and status. */
  lemma AfkOnlyPatchKeepsOthers(s: State, afk: bool)
    ensures var r := SetPresence(Some(s), Presence(None, None, None, Some(afk)));
            var prior := s.presence.GetOr(EmptyPresence);
            var p := r.state.value.presence.value;
            && p.since == prior.since && p.activities == prior.activities && p.status == prior.status
            && p.afk == Some(afk)
  {
  }

  /** Any status string is stored as given: the patch does not check it against a set of known statuses. */
  lemma AnyStatusAccepted(s: State, status: string)
    ensures var r := SetPresence(Some(s), Presence(None, None, Some(status), None));
            r.ok && r.state.value.presence.value.status == Some(status)
  {
  }

  /** A presence patch never touches the user cache or the token. */
  lemma PatchLeavesCacheAlone(s: State, patch: Presence)
    ensures var r := SetPresence(Some(s), patch);
            r.state.value.users == s.users && r.state.value.token == s.token
  {
  }

  /** The decimal rendering of a number, most significant digit first, without leading zeros. */
  function DecimalString(n: nat): (r: string)
    ensures 0 < |r| && AllDigits(r)
  {
    var digit := ['0' + (n % 10) as char];
    if n < 10 then digit else DecimalString(n / 10) + digit
  }

  /** Every snowflake written in decimal reads back as itself. */
  lemma {:induction false} DecimalRoundTrip(n: nat)
    ensures DecimalValue(DecimalString(n)) == n
  {
    var s := DecimalString(n);
    if n >= 10 {
      DecimalRoundTrip(n / 10);
      assert s[..|s| - 1] == DecimalString(n / 10);
    }
  }

  lemma SnowflakeRoundTrip(id: Snowflake)
    ensures ParseSnowflake(DecimalString(id)) == Some(id)
  {
    DecimalRoundTrip(id);
  }
}
