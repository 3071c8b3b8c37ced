/**
  The add and remove user handlers. They drive two things that must stay in step: the
  users the core really holds in each inbound, and the hash mirror of the manager. Any
  core call may fail, in which case it changes nothing.
 */
module Handlers {
  import opened Wrappers
  import opened HashedSets
  import opened HashText
  import opened HashState

  type User = string
  type Held = map<Tag, set<User>>

  function HeldAt(held: Held, tag: Tag): set<User> {
    if tag in held then held[tag] else {}
  }

  // ---- The mirror, over values ----

  function Uuids(users: set<User>, recorded: map<User, Text>): set<Text> {
    set u | u in users && u in recorded :: recorded[u]
  }

  ghost predicate MirrorsAt(hashed: map<Tag, set<Text>>, tags: set<Tag>, held: Held, recorded: map<User, Text>,
                            tag: Tag) {
    && UsersAt(hashed, tag) == Uuids(HeldAt(held, tag), recorded)
    && (forall u :: u in HeldAt(held, tag) ==> u in recorded && recorded[u] != [] && tag in tags)
  }

  /**
    Every inbound's hashed set is the set of uuids recorded for the users the core holds
    there, every inbound with users is among the inbound tags, and no two users share a
    uuid.
   */
  ghost predicate Mirrors(hashed: map<Tag, set<Text>>, tags: set<Tag>, held: Held, recorded: map<User, Text>) {
    && (forall tag :: UsersAt(hashed, tag) == Uuids(HeldAt(held, tag), recorded))
    && (forall tag, u :: u in HeldAt(held, tag) ==> u in recorded && recorded[u] != [] && tag in tags)
    && Injective(recorded)
    && "" !in tags
  }

  ghost predicate HeldNowhere(held: Held, user: User) {
    forall tag :: user !in HeldAt(held, tag)
  }

  /** No user but `user` is recorded with this uuid. */
  predicate NotOthers(recorded: map<User, Text>, user: User, uuid: Text) {
    forall v :: v in recorded && v != user ==> recorded[v] != uuid
  }

  /** `uuid` is what is recorded for `user` wherever the core holds it, and is no other user's. */
  ghost predicate IsUuidOf(held: Held, recorded: map<User, Text>, user: User, uuid: Text) {
    && uuid != []
    && NotOthers(recorded, user, uuid)
    && (HeldNowhere(held, user) || (user in recorded && recorded[user] == uuid))
  }

  function WithoutUuid(hashed: map<Tag, set<Text>>, tag: Tag, uuid: Text): map<Tag, set<Text>> {
    if tag !in hashed then hashed
    else if hashed[tag] - {uuid} == {} then hashed - {tag}
    else hashed[tag := hashed[tag] - {uuid}]
  }

  function TagsWithout(hashed: map<Tag, set<Text>>, tags: set<Tag>, tag: Tag, uuid: Text): set<Tag> {
    if tag in hashed && hashed[tag] - {uuid} == {} then tags - {tag} else tags
  }

  function Without(held: Held, tag: Tag, user: User): Held {
    held[tag := HeldAt(held, tag) - {user}]
  }

  function With(held: Held, tag: Tag, user: User): Held {
    held[tag := HeldAt(held, tag) + {user}]
  }

  lemma UuidsWithout(users: set<User>, recorded: map<User, Text>, user: User, uuid: Text)
    requires NotOthers(recorded, user, uuid)
    requires user in users && user in recorded ==> recorded[user] == uuid
    ensures Uuids(users - {user}, recorded) == Uuids(users, recorded) - {uuid}
  {
  }

  lemma RemoveKeepsMirror(hashed: map<Tag, set<Text>>, tags: set<Tag>, held: Held, recorded: map<User, Text>,
                          tag: Tag, user: User, uuid: Text)
    requires Mirrors(hashed, tags, held, recorded) && IsUuidOf(held, recorded, user, uuid)
    ensures Mirrors(WithoutUuid(hashed, tag, uuid), TagsWithout(hashed, tags, tag, uuid),
                    Without(held, tag, user), recorded)
  {
    var hashed', tags', held' :=
      WithoutUuid(hashed, tag, uuid), TagsWithout(hashed, tags, tag, uuid), Without(held, tag, user);
    MirrorsIff(hashed, tags, held, recorded);
    MirrorsIff(hashed', tags', held', recorded);
    assert user !in HeldAt(held, tag) || recorded[user] == uuid;
    assert "" !in tags';
    hide Mirrors, WithoutUuid, TagsWithout, Without, Injective;
    forall t ensures MirrorsAt(hashed', tags', held', recorded, t) {
      assert MirrorsAt(hashed, tags, held, recorded, t);
      if t == tag {
        RemovedHere(hashed, tags, held, recorded, tag, user, uuid);
      } else {
        RemovedElsewhere(hashed, tags, held, tag, user, uuid, t);
      }
    }
    hide *;
  }

  lemma RemovedHere(hashed: map<Tag, set<Text>>, tags: set<Tag>, held: Held, recorded: map<User, Text>,
                    tag: Tag, user: User, uuid: Text)
    requires MirrorsAt(hashed, tags, held, recorded, tag) && NotOthers(recorded, user, uuid)
    requires user in HeldAt(held, tag) ==> recorded[user] == uuid
    ensures MirrorsAt(WithoutUuid(hashed, tag, uuid), TagsWithout(hashed, tags, tag, uuid),
                      Without(held, tag, user), recorded, tag)
  {
    UuidsWithout(HeldAt(held, tag), recorded, user, uuid);
    RemovedAt(hashed, tags, held, tag, user, uuid);
    hide UsersAt, Without, WithoutUuid, HeldAt, TagsWithout, NotOthers;
    forall u | u in HeldAt(Without(held, tag, user), tag) ensures tag in TagsWithout(hashed, tags, tag, uuid) {
      assert u in HeldAt(held, tag);
      assert recorded[u] in Uuids(HeldAt(Without(held, tag, user), tag), recorded);
    }
  }

  predicate Injective(recorded: map<User, Text>) {
    forall u, v :: u in recorded && v in recorded && recorded[u] == recorded[v] ==> u == v
  }

  /** The mirror, inbound by inbound. */
  lemma MirrorsIff(hashed: map<Tag, set<Text>>, tags: set<Tag>, held: Held, recorded: map<User, Text>)
    ensures Mirrors(hashed, tags, held, recorded) <==>
            && (forall tag {:trigger MirrorsAt(hashed, tags, held, recorded, tag)} ::
                  MirrorsAt(hashed, tags, held, recorded, tag))
            && Injective(recorded) && "" !in tags
  {
    if Mirrors(hashed, tags, held, recorded) {
      forall tag ensures MirrorsAt(hashed, tags, held, recorded, tag) {
        assert UsersAt(hashed, tag) == Uuids(HeldAt(held, tag), recorded);
      }
    }
    if forall tag {:trigger MirrorsAt(hashed, tags, held, recorded, tag)} ::
         MirrorsAt(hashed, tags, held, recorded, tag)
    {
      forall tag ensures UsersAt(hashed, tag) == Uuids(HeldAt(held, tag), recorded) {
        assert MirrorsAt(hashed, tags, held, recorded, tag);
      }
      forall tag, u | u in HeldAt(held, tag) ensures u in recorded && recorded[u] != [] && tag in tags {
        assert MirrorsAt(hashed, tags, held, recorded, tag);
      }
    }
  }

  lemma RemovedAt(hashed: map<Tag, set<Text>>, tags: set<Tag>, held: Held, tag: Tag, user: User, uuid: Text)
    ensures UsersAt(WithoutUuid(hashed, tag, uuid), tag) == UsersAt(hashed, tag) - {uuid}
    ensures HeldAt(Without(held, tag, user), tag) == HeldAt(held, tag) - {user}
    ensures tag in tags && UsersAt(hashed, tag) - {uuid} != {} ==> tag in TagsWithout(hashed, tags, tag, uuid)
  {
  }

  lemma RemovedElsewhere(hashed: map<Tag, set<Text>>, tags: set<Tag>, held: Held, tag: Tag, user: User, uuid: Text,
                         t: Tag)
    requires t != tag
    ensures UsersAt(WithoutUuid(hashed, tag, uuid), t) == UsersAt(hashed, t)
    ensures HeldAt(Without(held, tag, user), t) == HeldAt(held, t)
    ensures t in TagsWithout(hashed, tags, tag, uuid) <==> t in tags
  {
  }

  lemma AddKeepsMirror(hashed: map<Tag, set<Text>>, tags: set<Tag>, held: Held, recorded: map<User, Text>,
                       tag: Tag, user: User, uuid: Text)
    requires Mirrors(hashed, tags, held, recorded) && tag != ""
    requires user in recorded && recorded[user] == uuid && uuid != []
    ensures Mirrors(hashed[tag := UsersAt(hashed, tag) + {uuid}], tags + {tag}, With(held, tag, user), recorded)
  {
    var hashed', held' := hashed[tag := UsersAt(hashed, tag) + {uuid}], With(held, tag, user);
    MirrorsIff(hashed, tags, held, recorded);
    MirrorsIff(hashed', tags + {tag}, held', recorded);
    forall t ensures MirrorsAt(hashed', tags + {tag}, held', recorded, t) {
      assert MirrorsAt(hashed, tags, held, recorded, t);
      AddedAt(hashed, tags, held, recorded, tag, user, t);
    }
    hide *;
  }

  lemma AddedAt(hashed: map<Tag, set<Text>>, tags: set<Tag>, held: Held, recorded: map<User, Text>,
                tag: Tag, user: User, t: Tag)
    requires MirrorsAt(hashed, tags, held, recorded, t)
    requires user in recorded && recorded[user] != []
    ensures MirrorsAt(hashed[tag := UsersAt(hashed, tag) + {recorded[user]}], tags + {tag},
                      With(held, tag, user), recorded, t)
  {
    if t == tag {
      assert Uuids(HeldAt(held, tag) + {user}, recorded) == Uuids(HeldAt(held, tag), recorded) + {recorded[user]};
    }
  }

  lemma MoreTagsKeepMirror(hashed: map<Tag, set<Text>>, tags: set<Tag>, tag: Tag, held: Held, recorded: map<User, Text>)
    requires Mirrors(hashed, tags, held, recorded) && tag != ""
    ensures Mirrors(hashed, tags + {tag}, held, recorded)
  {
  }

  lemma RecordKeepsMirror(hashed: map<Tag, set<Text>>, tags: set<Tag>, held: Held, recorded: map<User, Text>,
                          user: User, uuid: Text)
    requires Mirrors(hashed, tags, held, recorded)
    requires HeldNowhere(held, user) && NotOthers(recorded, user, uuid)
    ensures Mirrors(hashed, tags, held, recorded[user := uuid])
  {
    forall tag ensures UsersAt(hashed, tag) == Uuids(HeldAt(held, tag), recorded[user := uuid]) {
      assert user !in HeldAt(held, tag);
      assert Uuids(HeldAt(held, tag), recorded[user := uuid]) == Uuids(HeldAt(held, tag), recorded);
    }
  }

  // ---- The mirror and the restart decision ----

  /**
    No restart, joined with the mirror: for every inbound in which the core holds users
    there is an incoming entry, and its hash is that of those users' recorded uuids.
   */
  lemma SkipMeansSameUsers(emptyConfigHash: string, hashed: map<Tag, set<Text>>, incoming: ConfigHash,
                           tags: set<Tag>, held: Held, recorded: map<User, Text>, tag: Tag)
    requires UpToDate(emptyConfigHash, hashed, incoming) && Mirrors(hashed, tags, held, recorded)
    requires HeldAt(held, tag) != {}
    ensures var entry := FirstWithTag(incoming.inbounds, tag);
            entry.Some? && entry.value.hash == Hash64String(Fold(Uuids(HeldAt(held, tag), recorded)))
  {
    HeldMeansTracked(hashed, tags, held, recorded, tag);
    hide Fold, Hash64String, Mirrors, HeldAt, Uuids, FirstWithTag;
  }

  lemma HeldMeansTracked(hashed: map<Tag, set<Text>>, tags: set<Tag>, held: Held, recorded: map<User, Text>, tag: Tag)
    requires Mirrors(hashed, tags, held, recorded) && HeldAt(held, tag) != {}
    ensures tag in hashed && hashed[tag] == Uuids(HeldAt(held, tag), recorded)
  {
    var u :| u in HeldAt(held, tag);
    assert recorded[u] in Uuids(HeldAt(held, tag), recorded);
    assert UsersAt(hashed, tag) == Uuids(HeldAt(held, tag), recorded);
    hide Uuids, HeldAt;
  }

  /** The request lists this inbound's hash. */
  predicate Named(hashes: ConfigHash, tag: Tag) {
    tag != "" && exists i :: 0 <= i < |hashes.inbounds| && hashes.inbounds[i].tag == tag
  }

  /** The non-empty client ids a configuration gives an inbound; of several with one tag the last counts. */
  function ConfiguredIds(inbounds: seq<Inbound>, tag: Tag): set<Text> {
    if inbounds == [] then {}
    else
      var last := inbounds[|inbounds| - 1];
      if last.Inbound? && last.tag == tag then ClientIds(last.clients)
      else ConfiguredIds(inbounds[..|inbounds| - 1], tag)
  }

  lemma {:induction false} ExtractedAreConfigured(hashes: ConfigHash, inbounds: seq<Inbound>, tag: Tag)
    ensures UsersAt(ExtractedUsers(hashes, inbounds), tag) ==
              if Named(hashes, tag) then ConfiguredIds(inbounds, tag) else {}
    ensures tag in ExtractedUsers(hashes, inbounds) ==> Named(hashes, tag)
    ensures Named(hashes, tag) && ConfiguredIds(inbounds, tag) != {} ==> tag in ExtractedUsers(hashes, inbounds)
  {
    if inbounds != [] {
      hide ClientIds;
      ExtractedAreConfigured(hashes, inbounds[..|inbounds| - 1], tag);
    }
  }

  /** A core just started with these inbounds: it holds the users whose recorded uuids are configured. */
  ghost predicate StartedWith(held: Held, recorded: map<User, Text>, inbounds: seq<Inbound>) {
    && (forall tag :: Uuids(HeldAt(held, tag), recorded) == ConfiguredIds(inbounds, tag))
    && (forall tag, u :: u in HeldAt(held, tag) ==> u in recorded && recorded[u] != [])
    && Injective(recorded)
  }

  /** Right after a start the mirror holds if and only if the request lists every inbound that has users. */
  lemma MirrorAfterStartIff(hashes: ConfigHash, inbounds: seq<Inbound>, held: Held, recorded: map<User, Text>)
    requires StartedWith(held, recorded, inbounds)
    ensures var users := ExtractedUsers(hashes, inbounds);
            Mirrors(users, users.Keys, held, recorded) <==>
                  forall tag :: ConfiguredIds(inbounds, tag) != {} ==> Named(hashes, tag)
  {
    var users := ExtractedUsers(hashes, inbounds);
    MirrorsIff(users, users.Keys, held, recorded);
    ExtractedAreConfigured(hashes, inbounds, "");
    forall tag
      ensures MirrorsAt(users, users.Keys, held, recorded, tag) <==>
                (ConfiguredIds(inbounds, tag) != {} ==> Named(hashes, tag))
    {
      StartedAt(hashes, inbounds, held, recorded, tag);
    }
    assert "" !in users.Keys && Injective(recorded);
    hide *;
  }

  /** Such a start: the inbound `a` has a user, and the request does not list it. */
  lemma UnlistedInboundIsNotMirrored(hashes: ConfigHash, inbounds: seq<Inbound>, held: Held, recorded: map<User, Text>,
                                     uuid: Text)
    requires hashes == ConfigHash("hash", []) && inbounds == [Inbound("a", [uuid])]
    requires held == map["a" := {"user"}] && recorded == map["user" := uuid] && uuid != []
    ensures StartedWith(held, recorded, inbounds)
    ensures var users := ExtractedUsers(hashes, inbounds); !Mirrors(users, users.Keys, held, recorded)
  {
    assert inbounds[..0] == [];
    assert ClientIds([uuid]) == {uuid};
    assert Uuids({"user"}, recorded) == {uuid} && Uuids({}, recorded) == {};
    forall tag ensures Uuids(HeldAt(held, tag), recorded) == ConfiguredIds(inbounds, tag) {
    }
    hide HeldAt, Mirrors, ClientIds;
    MirrorAfterStartIff(hashes, inbounds, held, recorded);
    assert ConfiguredIds(inbounds, "a") != {} && !Named(hashes, "a");
  }

  lemma StartedAt(hashes: ConfigHash, inbounds: seq<Inbound>, held: Held, recorded: map<User, Text>, tag: Tag)
    requires StartedWith(held, recorded, inbounds)
    ensures var users := ExtractedUsers(hashes, inbounds);
            MirrorsAt(users, users.Keys, held, recorded, tag) <==>
                  (ConfiguredIds(inbounds, tag) != {} ==> Named(hashes, tag))
  {
    ExtractedAreConfigured(hashes, inbounds, tag);
    hide ExtractedUsers, ConfiguredIds, Named, HeldAt;
    forall u | u in HeldAt(held, tag) ensures ConfiguredIds(inbounds, tag) != {} {
      assert recorded[u] in Uuids(HeldAt(held, tag), recorded);
    }
    assert Uuids(HeldAt(held, tag), recorded) == ConfiguredIds(inbounds, tag);
  }

  // ---- The core and the handlers ----

  /**
    Adding a user succeeds only if the core refused nothing, and then it succeeds for every
    servable list of inbounds that the user is not yet in.
   */
  predicate Served(items: seq<AddItem>, user: User, before: Held, refusedBefore: nat, refused: nat, success: bool) {
    && refusedBefore <= refused
    && (success ==> refused == refusedBefore)
    && (refused == refusedBefore && Servable(items, user) && Absent(before, user, ItemTags(items)) ==> success)
  }

  /** The users the running core holds, by inbound. */
  class Core {
    var held: Held
    /** How many calls it has refused for no fault of the caller. */
    ghost var refused: nat

    /** Removing a user that is not there also succeeds. */
    method RemoveUser(tag: Tag, user: User) returns (ok: bool)
      modifies this
      ensures held == if ok then Without(old(held), tag, user) else old(held)
      ensures refused == if ok then old(refused) else old(refused) + 1
    {
      ok := *;
      if ok {
        held := held[tag := HeldAt(held, tag) - {user}];
      } else {
        refused := refused + 1;
      }
    }

    method AddUser(tag: Tag, user: User) returns (ok: bool)
      modifies this
      ensures held == if ok then With(old(held), tag, user) else old(held)
      ensures ok ==> user !in HeldAt(old(held), tag)
      ensures refused == if ok || user in HeldAt(old(held), tag) then old(refused) else old(refused) + 1
    {
      ok := *;
      if user in HeldAt(held, tag) {
        return false;
      }
      if ok {
        held := held[tag := HeldAt(held, tag) + {user}];
      } else {
        refused := refused + 1;
      }
    }
  }

  datatype AddItem = AddItem(kind: string, tag: Tag, username: User)

  datatype AddUserRequest = AddUserRequest(data: seq<AddItem>, vlessUuid: Text, prevVlessUuid: Option<Text>)

  datatype BatchUser = BatchUser(items: seq<AddItem>, userId: User, hashUuid: Text, vlessUuid: Text)

  datatype UserRef = UserRef(userId: User, hashUuid: Text)

  predicate Supported(kind: string) {
    kind in {"vless", "trojan", "shadowsocks", "shadowsocks22", "hysteria"}
  }

  /** `aggregateResults`: success means that no single call failed. */
  predicate Aggregate(results: seq<bool>) {
    forall i :: 0 <= i < |results| ==> results[i]
  }

  /** Items the core can serve: for one user, of kinds it knows, and with no inbound twice. */
  predicate Servable(items: seq<AddItem>, user: User) {
    && AllFor(items, user)
    && Tagged(items)
    && (forall i :: 0 <= i < |items| ==>
          items[i].kind in {"vless", "trojan", "shadowsocks", "shadowsocks22", "hysteria"})
    && (forall i, j :: 0 <= i < j < |items| ==> items[i].tag != items[j].tag)
  }

  predicate Tagged(items: seq<AddItem>) {
    forall i :: 0 <= i < |items| ==> items[i].tag != ""
  }

  /** The user is in none of these inbounds. */
  predicate Absent(held: Held, user: User, tags: set<Tag>) {
    forall tag :: tag in tags ==> user !in HeldAt(held, tag)
  }

  predicate Requested(items: seq<AddItem>, tag: Tag) {
    exists i :: 0 <= i < |items| && items[i].tag == tag
  }

  function ItemTags(items: seq<AddItem>): set<Tag> {
    set i | 0 <= i < |items| && items[i].tag != "" :: items[i].tag
  }

  lemma NoTags()
    ensures ItemTags([]) == {}
  {
  }

  lemma ItemTagsNext(items: seq<AddItem>, i: nat)
    requires i < |items|
    ensures ItemTags(items[..i + 1]) == ItemTags(items[..i]) + (if items[i].tag == "" then {} else {items[i].tag})
  {
    var shorter, longer := items[..i], items[..i + 1];
    assert longer == shorter + [items[i]];
    forall tag | tag in ItemTags(shorter) ensures tag in ItemTags(longer) {
      var k :| 0 <= k < |shorter| && shorter[k].tag != "" && shorter[k].tag == tag;
      assert longer[k].tag == tag;
    }
    assert longer[i].tag == items[i].tag;
  }

  predicate AllFor(items: seq<AddItem>, user: User) {
    forall i :: 0 <= i < |items| ==> items[i].username == user
  }

  /** A batch request names its user once, whatever its inbound items say. */
  function ForUser(items: seq<AddItem>, user: User): seq<AddItem> {
    seq(|items|, i requires 0 <= i < |items| => items[i].(username := user))
  }

  lemma ForUserIsAllFor(items: seq<AddItem>, user: User)
    ensures AllFor(ForUser(items, user), user)
    ensures (forall i :: 0 <= i < |items| ==> items[i].tag != "") ==>
              forall i :: 0 <= i < |ForUser(items, user)| ==> ForUser(items, user)[i].tag != ""
  {
  }

  lemma ForUserSameTags(items: seq<AddItem>, user: User, tag: Tag)
    ensures Requested(ForUser(items, user), tag) <==> Requested(items, tag)
  {
    if Requested(items, tag) {
      var i :| 0 <= i < |items| && items[i].tag == tag;
      assert ForUser(items, user)[i].tag == tag;
    }
  }

  /** The core holds `user` in exactly the requested inbounds. */
  ghost predicate HeldExactly(held: Held, user: User, items: seq<AddItem>) {
    forall tag :: user in HeldAt(held, tag) <==> Requested(items, tag)
  }

  /** Users other than `user` are where they were. */
  ghost predicate OthersKept(before: Held, after: Held, user: User) {
    forall tag, v :: v != user ==> (v in HeldAt(after, tag) <==> v in HeldAt(before, tag))
  }

  class NodeHandler {
    const state: State
    const core: Core
    ghost var recorded: map<User, Text>

    ghost predicate Mirror()
      reads this, state, state.inboundHashes.Values, core
    {
      Mirrors(state.Users(), state.inboundTags, core.held, recorded)
    }

    ghost predicate Known(user: User, uuid: Text)
      reads this, core
    {
      IsUuidOf(core.held, recorded, user, uuid)
    }

    constructor (state: State, core: Core, ghost recorded: map<User, Text>)
      ensures this.state == state && this.core == core && this.recorded == recorded
    {
      this.state := state;
      this.core := core;
      this.recorded := recorded;
    }

    /** One removal: the core first, then, if it agreed, the mirror. */
    method RemoveFrom(tag: Tag, user: User, uuid: Text) returns (ok: bool)
      requires state.Valid()
      modifies state, state.inboundHashes.Values, core
      ensures state.Valid() && fresh(state.inboundHashes.Values - old(state.inboundHashes.Values))
      ensures core.held == if ok then Without(old(core.held), tag, user) else old(core.held)
      ensures core.refused == if ok then old(core.refused) else old(core.refused) + 1
      ensures old(Mirror() && Known(user, uuid)) && tag != "" ==> Mirror()
    {
      hide Mirrors, IsUuidOf;
      if Mirror() && Known(user, uuid) {
        RemoveKeepsMirror(state.Users(), state.inboundTags, core.held, recorded, tag, user, uuid);
        UuidIsNotEmpty(core.held, recorded, user, uuid);
      }
      ok := core.RemoveUser(tag, user);
      if ok {
        state.RemoveUserFromInboundHash(tag, uuid);
      }
    }

    lemma UuidIsNotEmpty(held: Held, recorded: map<User, Text>, user: User, uuid: Text)
      requires IsUuidOf(held, recorded, user, uuid)
      ensures uuid != []
    {
    }

    /** Removes a user from every known inbound, in arbitrary order. */
    method RemoveEverywhere(user: User, uuid: Text) returns (results: seq<bool>, failed: bool)
      requires state.Valid()
      modifies state, state.inboundHashes.Values, core
      ensures state.Valid() && fresh(state.inboundHashes.Values - old(state.inboundHashes.Values))
      ensures Aggregate(results) <==> !failed
      ensures old(core.refused) <= core.refused && (failed <==> old(core.refused) < core.refused)
      ensures !failed ==> Absent(core.held, user, old(state.inboundTags))
      ensures OthersKept(old(core.held), core.held, user)
      ensures forall tag :: user in HeldAt(core.held, tag) ==> user in HeldAt(old(core.held), tag)
      ensures old(Mirror() && Known(user, uuid)) ==> Mirror() && Known(user, uuid)
      ensures old(Mirror() && Known(user, uuid)) && !failed ==> HeldNowhere(core.held, user)
    {
      results, failed := [], false;
      var rest := state.inboundTags;
      ghost var good := Mirror() && Known(user, uuid);
      while rest != {}
        invariant state.Valid() && fresh(state.inboundHashes.Values - old(state.inboundHashes.Values))
        invariant Aggregate(results) <==> !failed
        invariant old(core.refused) <= core.refused && (failed <==> old(core.refused) < core.refused)
        invariant !failed ==> Absent(core.held, user, old(state.inboundTags) - rest)
        invariant OthersKept(old(core.held), core.held, user)
        invariant forall tag :: user in HeldAt(core.held, tag) ==> user in HeldAt(old(core.held), tag)
        invariant good ==> Mirror() && Known(user, uuid) && "" !in rest
        invariant good && !failed ==> forall tag :: user in HeldAt(core.held, tag) ==> tag in rest
        decreases |rest|
      {
        hide Mirrors;
        var tag :| tag in rest;
        ghost var before := core.held;
        var ok := RemoveFrom(tag, user, uuid);
        AggregateAppend(results, ok);
        results := results + [ok];
        if !ok {
          failed := true;
        }
        AbsentMore(before, core.held, user, old(state.inboundTags) - rest, tag, ok);
        rest := rest - {tag};
        RemovalSpreads(before, core.held, recorded, tag, user, uuid, ok);
      }
    }

    lemma AbsentMore(before: Held, after: Held, user: User, tags: set<Tag>, tag: Tag, ok: bool)
      requires after == if ok then Without(before, tag, user) else before
      ensures ok && Absent(before, user, tags) ==> forall more :: more <= tags + {tag} ==> Absent(after, user, more)
    {
    }

    lemma RemovalSpreads(before: Held, after: Held, recorded: map<User, Text>, tag: Tag, user: User, uuid: Text,
                         ok: bool)
      requires after == if ok then Without(before, tag, user) else before
      ensures OthersKept(before, after, user)
      ensures IsUuidOf(before, recorded, user, uuid) ==> IsUuidOf(after, recorded, user, uuid)
      ensures forall t :: user in HeldAt(after, t) ==> user in HeldAt(before, t)
      ensures ok ==> user !in HeldAt(after, tag)
    {
      assert forall t :: t != tag ==> HeldAt(after, t) == HeldAt(before, t);
      if HeldNowhere(before, user) {
        forall t ensures user !in HeldAt(after, t) {
        }
      }
    }

    /** Everything AddTo needs to keep the mirror. */
    ghost predicate CanAdd(items: seq<AddItem>, user: User, uuid: Text)
      reads this
    {
      user in recorded && recorded[user] == uuid && uuid != [] && Tagged(items)
    }

    /** One addition: the core first, then, if it agreed, the mirror. */
    method AddItemTo(item: AddItem, uuid: Text) returns (ok: bool)
      requires state.Valid()
      modifies state, state.inboundHashes.Values, core
      ensures state.Valid() && fresh(state.inboundHashes.Values - old(state.inboundHashes.Values))
      ensures core.held == if ok then With(old(core.held), item.tag, item.username) else old(core.held)
      ensures old(core.refused) <= core.refused
      ensures ok <==>
              && core.refused == old(core.refused) && item.username !in HeldAt(old(core.held), item.tag)
              && item.kind in {"vless", "trojan", "shadowsocks", "shadowsocks22", "hysteria"}
      ensures old(Mirror()) && CanAdd([item], item.username, uuid) ==> Mirror()
    {
      hide Mirrors;
      if Mirror() && CanAdd([item], item.username, uuid) {
        assert [item][0].tag != "";
        AddKeepsMirror(state.Users(), state.inboundTags, core.held, recorded, item.tag, item.username, uuid);
      }
      ok := false;
      if Supported(item.kind) {
        ok := core.AddUser(item.tag, item.username);
      }
      if ok {
        state.AddUserToInboundHash(item.tag, uuid);
      }
    }

    /** Adds a user to the requested inbounds; a duplicate, an unknown kind or a core failure is a failed result. */
    method AddTo(items: seq<AddItem>, ghost user: User, uuid: Text) returns (results: seq<bool>)
      requires state.Valid()
      modifies state, state.inboundHashes.Values, core
      ensures state.Valid() && fresh(state.inboundHashes.Values - old(state.inboundHashes.Values))
      ensures |results| == |items|
      ensures Served(items, user, old(core.held), old(core.refused), core.refused, Aggregate(results))
      ensures AllFor(items, user) ==> OthersKept(old(core.held), core.held, user)
      ensures AllFor(items, user) && Aggregate(results) && old(HeldNowhere(core.held, user)) ==>
                HeldExactly(core.held, user, items)
      ensures AllFor(items, user) && old(Mirror()) && CanAdd(items, user, uuid) ==> Mirror()
    {
      hide Mirrors, Aggregate, HeldExactly, OthersKept, Servable, Absent, ItemTags;
      results := [];
      NothingRequested(core.held, user);
      NothingAdded(items, user, core.held);
      ghost var servable := Servable(items, user) && Absent(core.held, user, ItemTags(items));
      for i := 0 to |items|
        invariant state.Valid() && fresh(state.inboundHashes.Values - old(state.inboundHashes.Values))
        invariant |results| == i && old(core.refused) <= core.refused
        invariant Aggregate(results) ==> core.refused == old(core.refused)
        invariant servable && core.refused == old(core.refused) ==>
                    Aggregate(results) && AbsentFrom(core.held, user, items, i)
        invariant AllFor(items, user) ==> OthersKept(old(core.held), core.held, user)
        invariant AllFor(items, user) && old(Mirror()) && CanAdd(items, user, uuid) ==> Mirror()
        invariant AllFor(items, user) && Aggregate(results) && old(HeldNowhere(core.held, user)) ==>
                    HeldExactly(core.held, user, items[..i])
      {
        ghost var before := core.held;
        var ok := AddItemTo(items[i], uuid);
        if servable {
          StillAbsent(before, core.held, user, items, i, ok);
        }
        if AllFor(items, user) {
          AdditionSpreads(before, core.held, items, i, user, ok);
          OthersKeptTransitive(old(core.held), before, core.held, user);
        }
        AggregateAppend(results, ok);
        results := results + [ok];
      }
      assert items[..|items|] == items;
    }

    predicate AbsentFrom(held: Held, user: User, items: seq<AddItem>, from: int) {
      forall j :: 0 <= from <= j < |items| ==> user !in HeldAt(held, items[j].tag)
    }

    lemma NothingAdded(items: seq<AddItem>, user: User, held: Held)
      ensures Aggregate([])
      ensures Servable(items, user) && Absent(held, user, ItemTags(items)) ==> AbsentFrom(held, user, items, 0)
    {
      if Servable(items, user) && Absent(held, user, ItemTags(items)) {
        forall j | 0 <= j < |items| ensures user !in HeldAt(held, items[j].tag) {
          assert items[j].tag in ItemTags(items);
        }
      }
    }

    lemma StillAbsent(before: Held, after: Held, user: User, items: seq<AddItem>, i: nat, ok: bool)
      requires i < |items| && Servable(items, user)
      requires after == if ok then With(before, items[i].tag, items[i].username) else before
      ensures AbsentFrom(before, user, items, i) ==>
                && AbsentFrom(after, user, items, i + 1)
                && items[i].username !in HeldAt(before, items[i].tag)
      ensures items[i].kind in {"vless", "trojan", "shadowsocks", "shadowsocks22", "hysteria"}
    {
    }

    /** The user may be recorded with this uuid: it is held nowhere, and the uuid is no other user's. */
    ghost predicate CanRecord(user: User, uuid: Text)
      reads this, core
    {
      HeldNowhere(core.held, user) && NotOthers(recorded, user, uuid) && uuid != []
    }

    /** The dashboard's new uuid becomes the recorded one, and the user is added under it. */
    method RecordAndAdd(items: seq<AddItem>, ghost user: User, uuid: Text) returns (results: seq<bool>)
      requires state.Valid()
      modifies this, state, state.inboundHashes.Values, core
      ensures state.Valid() && fresh(state.inboundHashes.Values - old(state.inboundHashes.Values))
      ensures recorded == old(recorded)[user := uuid]
      ensures Served(items, user, old(core.held), old(core.refused), core.refused, Aggregate(results))
      ensures AllFor(items, user) ==> OthersKept(old(core.held), core.held, user)
      ensures AllFor(items, user) && Aggregate(results) && old(HeldNowhere(core.held, user)) ==>
                HeldExactly(core.held, user, items)
      ensures old(Mirror() && CanRecord(user, uuid)) && AllFor(items, user) && Tagged(items) ==> Mirror()
    {
      hide Mirrors, HeldExactly, OthersKept, Aggregate, HeldNowhere, AllFor, NotOthers, Served;
      if Mirror() && CanRecord(user, uuid) {
        RecordKeepsMirror(state.Users(), state.inboundTags, core.held, recorded, user, uuid);
      }
      recorded := recorded[user := uuid];
      results := AddTo(items, user, uuid);
    }

    lemma NothingRequested(held: Held, user: User)
      ensures OthersKept(held, held, user)
      ensures HeldNowhere(held, user) ==> HeldExactly(held, user, [])
    {
    }

    lemma OthersKeptTransitive(a: Held, b: Held, c: Held, user: User)
      requires OthersKept(a, b, user) && OthersKept(b, c, user)
      ensures OthersKept(a, c, user)
    {
    }

    lemma AdditionSpreads(before: Held, after: Held, items: seq<AddItem>, i: int, user: User, ok: bool)
      requires 0 <= i < |items| && after == if ok then With(before, items[i].tag, user) else before
      ensures OthersKept(before, after, user)
      ensures ok && HeldExactly(before, user, items[..i]) ==> HeldExactly(after, user, items[..i + 1])
    {
      if ok && HeldExactly(before, user, items[..i]) {
        forall tag ensures user in HeldAt(after, tag) <==> Requested(items[..i + 1], tag) {
          assert items[..i + 1] == items[..i] + [items[i]];
          if Requested(items[..i], tag) {
            var k :| 0 <= k < i && items[k].tag == tag;
            assert items[..i + 1][k].tag == tag;
          }
          if tag == items[i].tag {
            assert items[..i + 1][i].tag == tag;
          }
        }
      }
    }

    lemma AggregateAppend(results: seq<bool>, ok: bool)
      ensures Aggregate(results + [ok]) <==> Aggregate(results) && ok
    {
      if Aggregate(results + [ok]) {
        assert (results + [ok])[|results|] == ok;
        forall i | 0 <= i < |results| ensures results[i] {
          assert (results + [ok])[i];
        }
      }
    }

    method AddTags(items: seq<AddItem>)
      requires state.Valid()
      modifies state
      ensures state.Valid() && state.inboundHashes == old(state.inboundHashes)
      ensures old(Mirror()) ==> Mirror()
      ensures state.inboundTags == old(state.inboundTags) + ItemTags(items)
    {
      hide ItemTags, Mirrors;
      NoTags();
      assert items[..0] == [];
      for i := 0 to |items|
        invariant state.Valid() && state.inboundHashes == old(state.inboundHashes)
        invariant state.Users() == old(state.Users())
        invariant state.inboundTags == old(state.inboundTags) + ItemTags(items[..i])
        invariant old(Mirror()) ==> Mirror()
      {
        ItemTagsNext(items, i);
        if Mirror() && items[i].tag != "" {
          MoreTagsKeepMirror(state.Users(), state.inboundTags, items[i].tag, core.held, recorded);
        }
        state.AddInboundTag(items[i].tag);
      }
      assert items[..|items|] == items;
    }

    /**
      The dashboard's side of an add request: one user throughout, non-empty tags, its recorded uuid,
      a uuid of its own.
     */
    ghost predicate WellFormedAdd(req: AddUserRequest)
      reads this, core
    {
      && req.data != []
      && req.data[0].username != ""
      && AllFor(req.data, req.data[0].username)
      && Tagged(req.data)
      && req.vlessUuid != []
      && (if req.prevVlessUuid.Some? && req.prevVlessUuid.value != [] then
            Known(req.data[0].username, req.prevVlessUuid.value)
          else
            Known(req.data[0].username, req.vlessUuid))
      && NotOthers(recorded, req.data[0].username, req.vlessUuid)
    }

    /** `HandleAddUser`: None is the 400 response, otherwise whether the response reports success. */
    method HandleAddUser(req: AddUserRequest) returns (success: Option<bool>)
      requires state.Valid()
      modifies this, state, state.inboundHashes.Values, core
      ensures state.Valid() && fresh(state.inboundHashes.Values - old(state.inboundHashes.Values))
      ensures success.None? <==> req.data == []
      ensures req.data != [] ==>
                WillServe(req.data, req.data[0].username, old(core.refused), core.refused, success == Some(true))
      ensures success == Some(true) ==> recorded == old(recorded)[req.data[0].username := req.vlessUuid]
      ensures req.data != [] && AllFor(req.data, req.data[0].username) ==>
                OthersKept(old(core.held), core.held, req.data[0].username)
      ensures old(Mirror() && WellFormedAdd(req)) ==> Mirror()
      ensures old(Mirror() && WellFormedAdd(req)) && success == Some(true) ==>
                HeldExactly(core.held, req.data[0].username, req.data)
    {
      hide Mirrors, IsUuidOf, HeldExactly, OthersKept, Aggregate, NotOthers, ItemTags, Served, WillServe, Absent;
      if |req.data| == 0 {
        return None;
      }
      ghost var good := Mirror() && WellFormedAdd(req);
      ghost var before := core.held;
      NothingFailed(before, req.data[0].username);
      AddTags(req.data);
      ghost var tags := state.inboundTags;
      var hashUuid := req.vlessUuid;
      if req.prevVlessUuid.Some? && req.prevVlessUuid.value != [] {
        hashUuid := req.prevVlessUuid.value;
      }
      var username := req.data[0].username;
      var removalResults: seq<bool>, removalFailed := [], false;
      if username != "" {
        removalResults, removalFailed := RemoveEverywhere(username, hashUuid);
      }
      if removalFailed {
        RefusalIsFailure(req.data, username, old(core.refused), core.refused);
        return Some(Aggregate(removalResults));
      }
      ghost var removed := core.held;
      var results := RecordAndAdd(req.data, username, req.vlessUuid);
      AbsentIsServed(req.data, username, removed, tags, old(core.refused), core.refused, Aggregate(results));
      AggregateConcat(removalResults, results);
      if AllFor(req.data, username) {
        OthersKeptTransitive(before, removed, core.held, username);
      }
      return Some(Aggregate(removalResults + results));
    }

    /**
      A request is answered with success only if the core refused nothing; and then it is, whatever was
      held or mirrored before, for every servable list of inbounds.
     */
    predicate WillServe(items: seq<AddItem>, user: User, refusedBefore: nat, refused: nat, success: bool) {
      && refusedBefore <= refused
      && (success ==> refused == refusedBefore)
      && (refused == refusedBefore && user != "" && Servable(items, user) ==> success)
    }

    lemma AbsentIsServed(items: seq<AddItem>, user: User, held: Held, tags: set<Tag>, refusedBefore: nat,
                         refused: nat, success: bool)
      requires Served(items, user, held, refusedBefore, refused, success)
      requires user != "" ==> ItemTags(items) <= tags && Absent(held, user, tags)
      ensures WillServe(items, user, refusedBefore, refused, success)
    {
      hide ItemTags, Servable, HeldAt;
    }

    lemma RefusalIsFailure(items: seq<AddItem>, user: User, refusedBefore: nat, refused: nat)
      requires refusedBefore < refused
      ensures WillServe(items, user, refusedBefore, refused, false)
    {
    }

    lemma NothingFailed(held: Held, user: User)
      ensures Aggregate([]) && OthersKept(held, held, user)
    {
    }

    lemma AggregateConcat(a: seq<bool>, b: seq<bool>)
      ensures Aggregate(a + b) <==> Aggregate(a) && Aggregate(b)
    {
      if Aggregate(a + b) {
        forall i | 0 <= i < |a| ensures a[i] { assert (a + b)[i]; }
        forall i | 0 <= i < |b| ensures b[i] { assert (a + b)[|a| + i]; }
      }
    }

    /** `HandleRemoveUser`. */
    method HandleRemoveUser(user: User, uuid: Text) returns (success: bool)
      requires state.Valid()
      modifies state, state.inboundHashes.Values, core
      ensures state.Valid() && fresh(state.inboundHashes.Values - old(state.inboundHashes.Values))
      ensures old(core.refused) <= core.refused && (success <==> core.refused == old(core.refused))
      ensures success ==> forall tag :: tag in old(state.inboundTags) ==> user !in HeldAt(core.held, tag)
      ensures OthersKept(old(core.held), core.held, user)
      ensures old(Mirror() && Known(user, uuid)) ==> Mirror()
      ensures old(Mirror() && Known(user, uuid)) && success ==> HeldNowhere(core.held, user)
    {
      if |state.inboundTags| == 0 {
        return true;
      }
      var results, _ := RemoveEverywhere(user, uuid);
      return Aggregate(results);
    }

    /** Batch requests: distinct users, and no user's new uuid is an old or new uuid of another. */
    ghost predicate WellFormedBatch(users: seq<BatchUser>)
      reads this, core
    {
      && (forall i :: 0 <= i < |users| ==> WellFormedUser(users[i]))
      && (forall i, j :: 0 <= i < |users| && 0 <= j < |users| && i != j ==>
            && users[i].userId != users[j].userId
            && users[i].vlessUuid != users[j].vlessUuid
            && users[i].vlessUuid != users[j].hashUuid)
    }

    ghost predicate WellFormedUser(u: BatchUser)
      reads this, core
    {
      && u.vlessUuid != []
      && Known(u.userId, u.hashUuid)
      && NotOthers(recorded, u.userId, u.vlessUuid)
      && Tagged(u.items)
    }

    /** As WillServe, for one user of a batch. */
    predicate Answered(u: BatchUser, refusedBefore: nat, refused: nat, success: bool) {
      && refusedBefore <= refused
      && (success ==> refused == refusedBefore)
      && (refused == refusedBefore && Servable(ForUser(u.items, u.userId), u.userId) ==> success)
    }

    lemma AbsentIsAnswered(u: BatchUser, held: Held, tags: set<Tag>, refusedBefore: nat, refused: nat, success: bool)
      requires Served(ForUser(u.items, u.userId), u.userId, held, refusedBefore, refused, success)
      requires ItemTags(u.items) <= tags && Absent(held, u.userId, tags)
      ensures Answered(u, refusedBefore, refused, success)
    {
      assert ItemTags(ForUser(u.items, u.userId)) <= ItemTags(u.items);
      hide ItemTags, Servable, HeldAt, ForUser;
    }

    lemma RefusalIsAnswered(u: BatchUser, refusedBefore: nat, refused: nat)
      requires refusedBefore < refused
      ensures Answered(u, refusedBefore, refused, false)
    {
    }

    /** One round of `HandleAddUsers`. */
    method AddOne(u: BatchUser) returns (results: seq<bool>)
      requires state.Valid()
      modifies this, state, state.inboundHashes.Values, core
      ensures state.Valid() && fresh(state.inboundHashes.Values - old(state.inboundHashes.Values))
      ensures OthersKept(old(core.held), core.held, u.userId)
      ensures Answered(u, old(core.refused), core.refused, Aggregate(results))
      ensures recorded == old(recorded) || recorded == old(recorded)[u.userId := u.vlessUuid]
      ensures Aggregate(results) ==> recorded == old(recorded)[u.userId := u.vlessUuid]
      ensures old(Mirror() && WellFormedUser(u)) ==> Mirror()
      ensures old(Mirror() && WellFormedUser(u)) && Aggregate(results) ==> HeldExactly(core.held, u.userId, u.items)
    {
      hide Mirrors, IsUuidOf, HeldExactly, Aggregate, OthersKept, ForUser, ItemTags, Served, Answered, Absent;
      ghost var before, good := core.held, Mirror() && WellFormedUser(u);
      ForUserIsAllFor(u.items, u.userId);
      AddTags(u.items);
      ghost var tags := state.inboundTags;
      var removalFailed: bool;
      results, removalFailed := RemoveEverywhere(u.userId, u.hashUuid);
      if removalFailed {
        RefusalIsAnswered(u, old(core.refused), core.refused);
        return;
      }
      ghost var removed := core.held;
      var added := RecordAndAdd(ForUser(u.items, u.userId), u.userId, u.vlessUuid);
      AbsentIsAnswered(u, removed, tags, old(core.refused), core.refused, Aggregate(added));
      BatchHeldExactly(core.held, u.userId, u.items);
      AggregateConcat(results, added);
      OthersKeptTransitive(before, removed, core.held, u.userId);
      results := results + added;
    }

    lemma BatchHeldExactly(held: Held, user: User, items: seq<AddItem>)
      ensures HeldExactly(held, user, ForUser(items, user)) <==> HeldExactly(held, user, items)
    {
      forall tag ensures Requested(ForUser(items, user), tag) <==> Requested(items, tag) {
        ForUserSameTags(items, user, tag);
      }
    }

    predicate AllServable(users: seq<BatchUser>) {
      forall i :: 0 <= i < |users| ==> Servable(ForUser(users[i].items, users[i].userId), users[i].userId)
    }

    /** `HandleAddUsers`. */
    method HandleAddUsers(affectedInboundTags: seq<Tag>, users: seq<BatchUser>) returns (success: bool)
      requires state.Valid()
      modifies this, state, state.inboundHashes.Values, core
      ensures state.Valid() && fresh(state.inboundHashes.Values - old(state.inboundHashes.Values))
      ensures success ==> core.refused == old(core.refused)
      ensures core.refused == old(core.refused) && AllServable(users) ==> success
      ensures old(Mirror() && WellFormedBatch(users)) ==> Mirror()
      ensures old(Mirror() && WellFormedBatch(users)) && success ==>
                forall i :: 0 <= i < |users| ==>
                  && HeldExactly(core.held, users[i].userId, users[i].items)
                  && users[i].userId in recorded && recorded[users[i].userId] == users[i].vlessUuid
    {
      hide Mirrors, IsUuidOf, HeldExactly;
      ghost var good := Mirror() && WellFormedBatch(users);
      AddTags(seq(|affectedInboundTags|,
          i requires 0 <= i < |affectedInboundTags| => AddItem("", affectedInboundTags[i], "")));
      var results: seq<bool> := [];
      for i := 0 to |users|
        invariant state.Valid() && fresh(state.inboundHashes.Values - old(state.inboundHashes.Values))
        invariant old(core.refused) <= core.refused
        invariant Aggregate(results) ==> core.refused == old(core.refused)
        invariant core.refused == old(core.refused) && AllServable(users) ==> Aggregate(results)
        invariant good ==> Mirror()
        invariant good ==> forall j :: i <= j < |users| ==> WellFormedUser(users[j])
        invariant good && Aggregate(results) ==>
                    forall j :: 0 <= j < i ==>
                      && HeldExactly(core.held, users[j].userId, users[j].items)
                      && users[j].userId in recorded && recorded[users[j].userId] == users[j].vlessUuid
      {
        ghost var before, recordedBefore := core.held, recorded;
        var one := AddOne(users[i]);
        AggregateConcat(results, one);
        results := results + one;
        if good {
          forall j | 0 <= j < |users| && j != i
            ensures i < j ==> WellFormedUser(users[j])
            ensures HeldExactly(before, users[j].userId, users[j].items) ==>
                      HeldExactly(core.held, users[j].userId, users[j].items)
          {
            OtherUserKept(before, core.held, recordedBefore, recorded, users[i], users[j]);
          }
        }
      }
      return Aggregate(results);
    }

    lemma OtherUserKept(before: Held, after: Held, recorded: map<User, Text>, recorded': map<User, Text>, u: BatchUser,
                        v: BatchUser)
      requires OthersKept(before, after, u.userId) && u.userId != v.userId
      requires recorded' == recorded || recorded' == recorded[u.userId := u.vlessUuid]
      requires u.vlessUuid != v.vlessUuid && u.vlessUuid != v.hashUuid
      ensures IsUuidOf(before, recorded, v.userId, v.hashUuid) ==> IsUuidOf(after, recorded', v.userId, v.hashUuid)
      ensures NotOthers(recorded, v.userId, v.vlessUuid) ==> NotOthers(recorded', v.userId, v.vlessUuid)
      ensures HeldExactly(before, v.userId, v.items) ==> HeldExactly(after, v.userId, v.items)
    {
      if HeldNowhere(before, v.userId) {
        assert HeldNowhere(after, v.userId);
      }
    }

    /** `HandleRemoveUsers`. */
    method HandleRemoveUsers(users: seq<UserRef>) returns (success: bool)
      requires state.Valid()
      modifies state, state.inboundHashes.Values, core
      ensures state.Valid() && fresh(state.inboundHashes.Values - old(state.inboundHashes.Values))
      ensures old(core.refused) <= core.refused && (success <==> core.refused == old(core.refused))
      ensures old(Mirror()) && (forall i :: 0 <= i < |users| ==> old(Known(users[i].userId, users[i].hashUuid))) ==>
                && Mirror()
                && (success ==> forall i :: 0 <= i < |users| ==> HeldNowhere(core.held, users[i].userId))
    {
      hide Mirrors, IsUuidOf;
      ghost var good := Mirror() && (forall i :: 0 <= i < |users| ==> Known(users[i].userId, users[i].hashUuid));
      if |state.inboundTags| == 0 {
        if good {
          NothingHeld();
        }
        return true;
      }
      var results: seq<bool> := [];
      for i := 0 to |users|
        invariant state.Valid() && fresh(state.inboundHashes.Values - old(state.inboundHashes.Values))
        invariant old(core.refused) <= core.refused && (Aggregate(results) <==> core.refused == old(core.refused))
        invariant good ==> Mirror() && (forall j :: 0 <= j < |users| ==> Known(users[j].userId, users[j].hashUuid))
        invariant good && Aggregate(results) ==> forall j :: 0 <= j < i ==> HeldNowhere(core.held, users[j].userId)
      {
        ghost var before := core.held;
        var one, _ := RemoveEverywhere(users[i].userId, users[i].hashUuid);
        AggregateConcat(results, one);
        results := results + one;
        if good {
          forall j | 0 <= j < |users|
            ensures Known(users[j].userId, users[j].hashUuid)
            ensures HeldNowhere(before, users[j].userId) ==> HeldNowhere(core.held, users[j].userId)
          {
            OtherStaysKnown(before, core.held, recorded, users[i].userId, users[j]);
          }
        }
      }
      return Aggregate(results);
    }

    lemma NothingHeld()
      requires Mirror() && state.inboundTags == {}
      ensures forall u :: HeldNowhere(core.held, u)
    {
    }

    lemma OtherStaysKnown(before: Held, after: Held, recorded: map<User, Text>, user: User, v: UserRef)
      requires OthersKept(before, after, user)
      requires forall tag :: user in HeldAt(after, tag) ==> user in HeldAt(before, tag)
      ensures IsUuidOf(before, recorded, v.userId, v.hashUuid) ==> IsUuidOf(after, recorded, v.userId, v.hashUuid)
      ensures HeldNowhere(before, v.userId) ==> HeldNowhere(after, v.userId)
    {
      if HeldNowhere(before, v.userId) {
        assert HeldNowhere(after, v.userId);
      }
    }
  }
}
