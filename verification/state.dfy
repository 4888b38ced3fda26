/**
 * The user identity cache and the gateway presence of state.c.
 *
 * The C `discord_state` keeps its users in a map keyed by snowflake; the
 * model uses a Dafny `map`. Fallible steps the model cannot see into —
 * constructing a user from its JSON (user_init) and inserting into the map
 * (map_set) — arrive as parameters: `built` is what user_init returned and
 * `stored` is map_set's answer.
 */
module DiscordState {
  import opened Wrappers
  import TaggedList

  /** A 64-bit snowflake identifier. */
  type Snowflake = n: int | 0 <= n < 0x1_0000_0000_0000_0000

  /** A JSON object as the cache reads it: each member's value as json_object_get_string renders it. */
  type JsonObject = map<string, string>

  /** A cached user. `instance` tells apart separately constructed objects that carry the same id. */
  datatype User = User(id: Snowflake, instance: nat)

  /**
   * The gateway presence, four fields each absent until set. A patch has the
   * same shape, an absent field meaning "keep the prior value".
   */
  datatype Presence = Presence(
    since: Option<int>,
    activities: Option<TaggedList.ListValue>,
    status: Option<string>,
    afk: Option<bool>)

  /** The parts of `discord_state` this model follows. `presence` is None while the C pointer is NULL. */
  datatype State = State(token: string, intent: nat, presence: Option<Presence>, users: map<Snowflake, User>)

  /** `discord_gateway_presence`: since and afk are plain values, activities and status may be NULL. */
  datatype GatewayPresence = GatewayPresence(
    since: int,
    activities: Option<TaggedList.ListValue>,
    status: Option<string>,
    afk: bool)

  /** `discord_state_options` without the logger. */
  datatype Options = Options(intent: nat, presence: Option<GatewayPresence>)

  /** A call's returned user (None for NULL) and the state it leaves. */
  datatype UserLookup = UserLookup(state: Option<State>, user: Option<User>)

  /** A call's boolean answer and the state it leaves. */
  datatype StateUpdate = StateUpdate(ok: bool, state: Option<State>)

  const EmptyPresence: Presence := Presence(None, None, None, None)

  // ---------------------------------------------------------------------------
  // Snowflake ids in JSON

  predicate IsDigit(c: char)
  {
    '0' <= c <= '9'
  }

  predicate AllDigits(s: string)
  {
    forall i :: 0 <= i < |s| ==> IsDigit(s[i])
  }

  function DecimalValue(s: string): nat
    requires AllDigits(s)
  {
    if |s| == 0 then 0
    else DecimalValue(s[..|s| - 1]) * 10 + (s[|s| - 1] as int - '0' as int)
  }

  /** A snowflake written as an unsigned decimal string that fits in 64 bits. */
  function ParseSnowflake(s: string): (r: Option<Snowflake>)
    ensures r.Some? <==> 0 < |s| && AllDigits(s) && DecimalValue(s) < 0x1_0000_0000_0000_0000
    ensures r.Some? ==> r.value == DecimalValue(s)
  {
    if 0 < |s| && AllDigits(s) && DecimalValue(s) < 0x1_0000_0000_0000_0000 then Some(DecimalValue(s))
    else None
  }

  /** The snowflake in a JSON object's "id" member, if it has one that parses. */
  function IdOf(data: JsonObject): (r: Option<Snowflake>)
    ensures r.Some? ==> "id" in data && ParseSnowflake(data["id"]) == r
    ensures "id" !in data ==> r.None?
    ensures "id" in data ==> r == ParseSnowflake(data["id"])
  {
    if "id" in data then ParseSnowflake(data["id"]) else None
  }

  /**
   * What user_init promises: it fails without data, and a user it does build
   * carries the id parsed from the same "id" member.
   */
  predicate ConstructedFrom(data: Option<JsonObject>, built: Option<User>)
  {
    built.Some? ==> data.Some? && IdOf(data.value) == Some(built.value.id)
  }

  // ---------------------------------------------------------------------------
  // User cache

  /** The cache invariant: every user is filed under its own id. */
  predicate Consistent(state: Option<State>)
  {
    state.Some? ==> forall k :: k in state.value.users ==> state.value.users[k].id == k
  }

  /** state_get_user: the cached user with this id, or NULL. The cache is only read. */
  function GetUser(state: Option<State>, id: Snowflake): (r: Option<User>)
    ensures r.Some? <==> state.Some? && id in state.value.users
    ensures r.Some? ==> r.value == state.value.users[id]
  {
    if state.None? then None
    else if id !in state.value.users then None
    else Some(state.value.users[id])
  }

  /**
   * state_set_user: get-or-create keyed by the "id" member of `data`. A hit
   * returns the cached user; a miss caches and returns what user_init built;
   * every failure returns NULL and leaves the cache as it was.
   */
  function SetUser(state: Option<State>, data: Option<JsonObject>, built: Option<User>, stored: bool): (r: UserLookup)
    requires ConstructedFrom(data, built)
    // every failure, and every hit, leaves the state alone
    ensures r.user.None? ==> r.state == state
    ensures state.None? || data.None? || IdOf(data.value).None? ==> r.user.None?
    // a hit returns the cached instance
    ensures state.Some? && data.Some? && IdOf(data.value).Some? && IdOf(data.value).value in state.value.users ==>
              r == UserLookup(state, Some(state.value.users[IdOf(data.value).value]))
    // a miss caches exactly the constructed user, when both construction and insertion succeed
    ensures state.Some? && data.Some? && IdOf(data.value).Some? && IdOf(data.value).value !in state.value.users ==>
              (r.user.Some? <==> built.Some? && stored)
    ensures state.Some? && data.Some? && IdOf(data.value).Some? && IdOf(data.value).value !in state.value.users
            && built.Some? && stored ==>
              r == UserLookup(Some(state.value.(users := state.value.users[IdOf(data.value).value := built.value])), built)
    ensures r.user.Some? && r.state != state ==>
              && state.Some? && built.Some? && r.user == built
              && r.state == Some(state.value.(users := state.value.users[built.value.id := built.value]))
              && built.value.id !in state.value.users
              && |r.state.value.users| == |state.value.users| + 1
    // no entry already cached is replaced or dropped
    ensures state.Some? ==> r.state.Some? && r.state.value.users.Keys >= state.value.users.Keys
    ensures state.Some? ==> forall k :: k in state.value.users ==> r.state.value.users[k] == state.value.users[k]
    // the cache stays filed by id, and what is returned is what it holds under the id of `data`
    ensures Consistent(state) ==> Consistent(r.state)
    ensures Consistent(state) && r.user.Some? ==>
              && IdOf(data.value) == Some(r.user.value.id)
              && GetUser(r.state, r.user.value.id) == r.user
  {
    if state.None? || data.None? then UserLookup(state, None)
    else
      match IdOf(data.value)
      case None => UserLookup(state, None)
      case Some(id) =>
        var s := state.value;
        if id in s.users then UserLookup(state, Some(s.users[id]))
        else if built.None? || !stored then UserLookup(state, None)
        else UserLookup(Some(s.(users := s.users[id := built.value])), built)
  }

  // ---------------------------------------------------------------------------
  // Presence

  /** The presence a patch leaves: each field given by the patch, the prior value otherwise. */
  function Overlay(patch: Presence, prior: Presence): Presence
  {
    Presence(
      if patch.since.Some? then patch.since else prior.since,
      if patch.activities.Some? then patch.activities else prior.activities,
      if patch.status.Some? then patch.status else prior.status,
      if patch.afk.Some? then patch.afk else prior.afk)
  }

  /**
   * state_set_gateway_presence: overlay the patch on the stored presence (or
   * on an empty one while none is stored). Any status string is accepted;
   * only a NULL state is refused.
   */
  function SetPresence(state: Option<State>, patch: Presence): (r: StateUpdate)
    ensures r.ok <==> state.Some?
    ensures !r.ok ==> r.state == state
    ensures r.ok ==> r.state == Some(state.value.(presence := Some(Overlay(patch, state.value.presence.GetOr(EmptyPresence)))))
  {
    if state.None? then StateUpdate(false, state)
    else
      var s := state.value;
      StateUpdate(true, Some(s.(presence := Some(Overlay(patch, s.presence.GetOr(EmptyPresence))))))
  }

  /** The patch state_init and discord_set_presence build from a `discord_gateway_presence`. */
  function PatchOf(p: GatewayPresence): Presence
  {
    Presence(Some(p.since), p.activities, p.status, Some(p.afk))
  }

  /**
   * state_init: refuses a NULL token; otherwise an empty cache, and the
   * presence from the options installed through the presence patch.
   */
  function StateInit(token: Option<string>, opts: Option<Options>): (r: Option<State>)
    ensures r.Some? <==> token.Some?
    ensures r.Some? ==> r.value.token == token.value && r.value.users == map[] && Consistent(r)
    ensures r.Some? && (opts.None? || opts.value.presence.None?) ==> r.value.presence.None?
    // the initial presence is exactly the options' one: since and afk set, activities and status as given
    ensures r.Some? && opts.Some? && opts.value.presence.Some? ==>
              var g := opts.value.presence.value;
              r.value.presence == Some(Presence(Some(g.since), g.activities, g.status, Some(g.afk)))
    ensures r.Some? ==> r.value.intent == if opts.Some? then opts.value.intent else 0
  {
    if token.None? then None
    else
      var s := State(token.value, if opts.Some? then opts.value.intent else 0, None, map[]);
      if opts.Some? && opts.value.presence.Some? then
        var u := SetPresence(Some(s), PatchOf(opts.value.presence.value));
        if u.ok then u.state else None
      else Some(s)
  }
}
