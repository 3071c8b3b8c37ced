/**
  Hash bookkeeping of the manager: one hashed user set per inbound, the inbound tags,
  and the decision whether a start request can be skipped.
 */
module HashState {
  import opened Wrappers
  import opened HashedSets
  import opened HashText

  type Tag = string

  datatype InboundHash = InboundHash(tag: Tag, hash: string)

  datatype ConfigHash = ConfigHash(emptyConfig: string, inbounds: seq<InboundHash>)

  /** An entry of the configuration's "inbounds"; a missing tag or id is an empty string. */
  datatype Inbound = Malformed | Inbound(tag: Tag, clients: seq<Text>)

  /** The incoming entry the decision looks at: the first one with this tag. */
  function FirstWithTag(inbounds: seq<InboundHash>, tag: Tag): Option<InboundHash> {
    if inbounds == [] then None
    else if inbounds[0].tag == tag then Some(inbounds[0])
    else FirstWithTag(inbounds[1..], tag)
  }

  function ClientIds(clients: seq<Text>): set<Text> {
    set id | id in clients && id != []
  }

  predicate Tracked(hashes: ConfigHash, inbound: Inbound) {
    && inbound.Inbound?
    && inbound.tag != ""
    && exists i :: 0 <= i < |hashes.inbounds| && hashes.inbounds[i].tag == inbound.tag
  }

  /** Tracked user sets of a configuration: a later inbound with the same tag replaces an earlier one. */
  function ExtractedUsers(hashes: ConfigHash, inbounds: seq<Inbound>): map<Tag, set<Text>> {
    if inbounds == [] then map[]
    else
      var earlier, last := ExtractedUsers(hashes, inbounds[..|inbounds| - 1]), inbounds[|inbounds| - 1];
      if Tracked(hashes, last) then earlier[last.tag := ClientIds(last.clients)] else earlier
  }

  /** An inbound is tracked exactly when the configuration has it and the request lists its tag, ... */
  lemma {:induction false} ExtractedIff(hashes: ConfigHash, inbounds: seq<Inbound>, tag: Tag)
    ensures tag in ExtractedUsers(hashes, inbounds) <==>
            && tag != ""
            && (exists i :: 0 <= i < |hashes.inbounds| && hashes.inbounds[i].tag == tag)
            && (exists k :: 0 <= k < |inbounds| && inbounds[k].Inbound? && inbounds[k].tag == tag)
  {
    if inbounds != [] {
      var init := inbounds[..|inbounds| - 1];
      ExtractedIff(hashes, init, tag);
      assert forall k :: 0 <= k < |init| ==> inbounds[k] == init[k];
    }
  }

  /** The last entry of the configuration with a tag. */
  predicate IsLastWith(inbounds: seq<Inbound>, k: int, tag: Tag) {
    && 0 <= k < |inbounds| && inbounds[k].Inbound? && inbounds[k].tag == tag
    && forall later :: k < later < |inbounds| ==> inbounds[later].Malformed? || inbounds[later].tag != tag
  }

  /** ... and its users are the non-empty ids of the last entry with that tag. */
  lemma {:induction false} LastEntryCounts(hashes: ConfigHash, inbounds: seq<Inbound>, tag: Tag, k: int)
    requires tag in ExtractedUsers(hashes, inbounds) && IsLastWith(inbounds, k, tag)
    ensures forall id :: id in ExtractedUsers(hashes, inbounds)[tag] <==> id in inbounds[k].clients && id != []
  {
    var n := |inbounds| - 1;
    if k < n {
      assert inbounds[n].Malformed? || inbounds[n].tag != tag;
      assert IsLastWith(inbounds[..n], k, tag);
      LastEntryCounts(hashes, inbounds[..n], tag, k);
    } else {
      ExtractedIff(hashes, inbounds, tag);
      assert ExtractedUsers(hashes, inbounds)[tag] == ClientIds(inbounds[n].clients);
    }
  }

  /** The verdict, stated over the tracked user sets rather than their running hashes. */
  ghost predicate UpToDate(emptyConfigHash: string, users: map<Tag, set<Text>>, incoming: ConfigHash) {
    && emptyConfigHash != ""
    && incoming.emptyConfig == emptyConfigHash
    && |incoming.inbounds| == |users|
    && (forall tag :: tag in users ==>
          var entry := FirstWithTag(incoming.inbounds, tag);
          entry.Some? && entry.value.hash == Hash64String(Fold(users[tag])))
  }

  /**
    A skipped restart is sound: if the dashboard's entry for a tag prints the hash of
    some user set, that set's words equal the words of the users tracked here.
   */
  lemma SkipMeansSameWords(emptyConfigHash: string, users: map<Tag, set<Text>>, incoming: ConfigHash, tag: Tag,
                           theirs: Words)
    requires UpToDate(emptyConfigHash, users, incoming) && tag in users
    requires FirstWithTag(incoming.inbounds, tag).value.hash == Hash64String(theirs)
    ensures theirs == Fold(users[tag])
  {
    Hash64StringInjective(theirs, Fold(users[tag]));
  }

  function TagsOf(inbounds: seq<InboundHash>): set<Tag> {
    set i | 0 <= i < |inbounds| :: inbounds[i].tag
  }

  lemma {:induction false} FirstWithTagHasTag(inbounds: seq<InboundHash>, tag: Tag)
    requires FirstWithTag(inbounds, tag).Some?
    ensures tag in TagsOf(inbounds)
  {
    if inbounds[0].tag != tag {
      FirstWithTagHasTag(inbounds[1..], tag);
      var i :| 0 <= i < |inbounds[1..]| && inbounds[1..][i].tag == tag;
      assert inbounds[i + 1].tag == tag;
    }
  }

  lemma {:induction false} FewTags(inbounds: seq<InboundHash>)
    ensures |TagsOf(inbounds)| <= |inbounds|
  {
    if inbounds != [] {
      var init, last := inbounds[..|inbounds| - 1], inbounds[|inbounds| - 1].tag;
      FewTags(init);
      assert TagsOf(inbounds) == TagsOf(init) + {last} by {
        forall tag | tag in TagsOf(init) + {last} ensures tag in TagsOf(inbounds) {
          if tag != last {
            var i :| 0 <= i < |init| && init[i].tag == tag;
            assert inbounds[i].tag == tag;
          }
        }
      }
    }
  }

  lemma SameSizeSubset(a: set<Tag>, b: set<Tag>)
    requires a <= b && |b| <= |a|
    ensures a == b
  {
    assert b == a + (b - a);
  }

  /**
    No restart also means that the request lists exactly the tracked inbounds: none is gone, and no
    new one goes unseen.
   */
  lemma SkipMeansSameInbounds(emptyConfigHash: string, users: map<Tag, set<Text>>, incoming: ConfigHash)
    requires UpToDate(emptyConfigHash, users, incoming)
    ensures TagsOf(incoming.inbounds) == users.Keys
  {
    hide Fold, Hash64String;
    forall tag | tag in users ensures tag in TagsOf(incoming.inbounds) {
      FirstWithTagHasTag(incoming.inbounds, tag);
    }
    FewTags(incoming.inbounds);
    SameSizeSubset(users.Keys, TagsOf(incoming.inbounds));
  }

  /**
    A start is skipped exactly when the base hash is known and the same, and the request
    lists every tracked inbound once, no other, each with the printed hash of its users.
   */
  lemma SkippedIff(emptyConfigHash: string, users: map<Tag, set<Text>>, incoming: ConfigHash)
    ensures UpToDate(emptyConfigHash, users, incoming) <==>
            && emptyConfigHash != "" && incoming.emptyConfig == emptyConfigHash
            && TagsOf(incoming.inbounds) == users.Keys
            && OneEach(incoming.inbounds)
            && forall i :: 0 <= i < |incoming.inbounds| ==>
                 incoming.inbounds[i].hash == Hash64String(Fold(users[incoming.inbounds[i].tag]))
  {
    hide Fold, Hash64String, FirstWithTag, TagsOf, OneEach;
    assert |users| == |users.Keys|;
    if UpToDate(emptyConfigHash, users, incoming) {
      SkipMeansSameInbounds(emptyConfigHash, users, incoming);
      OneEachIff(incoming.inbounds);
    } else if TagsOf(incoming.inbounds) == users.Keys && OneEach(incoming.inbounds) {
      OneEachIff(incoming.inbounds);
    }
    if TagsOf(incoming.inbounds) == users.Keys && OneEach(incoming.inbounds) {
      forall i | 0 <= i < |incoming.inbounds|
        ensures incoming.inbounds[i].tag in users
        ensures FirstWithTag(incoming.inbounds, incoming.inbounds[i].tag) == Some(incoming.inbounds[i])
      {
        OnlyEntry(incoming.inbounds, i);
      }
      forall tag | tag in users
        ensures exists i :: 0 <= i < |incoming.inbounds| && incoming.inbounds[i].tag == tag
      {
        TagHasEntry(incoming.inbounds, tag);
      }
    }
  }

  /** No two entries have the same tag. */
  predicate OneEach(inbounds: seq<InboundHash>) {
    forall i, j :: 0 <= i < j < |inbounds| ==> inbounds[i].tag != inbounds[j].tag
  }

  lemma TagHasEntry(inbounds: seq<InboundHash>, tag: Tag)
    ensures tag in TagsOf(inbounds) <==> exists i :: 0 <= i < |inbounds| && inbounds[i].tag == tag
  {
  }

  lemma {:induction false} OneEachIff(inbounds: seq<InboundHash>)
    ensures OneEach(inbounds) <==> |TagsOf(inbounds)| == |inbounds|
  {
    if inbounds != [] {
      var init, last := inbounds[..|inbounds| - 1], inbounds[|inbounds| - 1].tag;
      OneEachIff(init);
      FewTags(init);
      assert inbounds == init + [inbounds[|inbounds| - 1]];
      TagsAppend(init, inbounds[|inbounds| - 1]);
      TagHasEntry(init, last);
      if last in TagsOf(init) {
        assert TagsOf(init) + {last} == TagsOf(init);
      }
    }
  }

  lemma TagsAppend(init: seq<InboundHash>, last: InboundHash)
    ensures TagsOf(init + [last]) == TagsOf(init) + {last.tag}
  {
    forall tag ensures tag in TagsOf(init + [last]) <==> tag in TagsOf(init) + {last.tag} {
      TagHasEntry(init, tag);
      TagHasEntry(init + [last], tag);
      if tag in TagsOf(init) {
        var i :| 0 <= i < |init| && init[i].tag == tag;
        assert (init + [last])[i].tag == tag;
      }
      assert (init + [last])[|init|] == last;
    }
  }

  lemma {:induction false} OnlyEntry(inbounds: seq<InboundHash>, i: nat)
    requires i < |inbounds| && OneEach(inbounds)
    ensures FirstWithTag(inbounds, inbounds[i].tag) == Some(inbounds[i])
    ensures inbounds[i].tag in TagsOf(inbounds)
  {
    if i > 0 {
      assert inbounds[0].tag != inbounds[i].tag;
      OnlyEntry(inbounds[1..], i - 1);
    }
  }

  /** One tracked inbound whose only user is "A": what the dashboard sends to have its start skipped. */
  lemma SkippedInstance(incoming: ConfigHash)
    requires incoming == ConfigHash("base", [InboundHash("in", "0002b5e6" + "00056130")])
    ensures UpToDate("base", map["in" := {[65]}], incoming)
  {
    HashOfA();
    SmallFolds([65]);
    PrintedPairs();
    hide *;
    OneInbound("base", "in", {[65]}, "0002b5e6" + "00056130");
  }

  lemma OneInbound(base: string, tag: Tag, users: set<Text>, hash: string)
    requires base != "" && hash == Hash64String(Fold(users))
    ensures UpToDate(base, map[tag := users], ConfigHash(base, [InboundHash(tag, hash)]))
  {
    hide Fold, Hash64String;
    var inbounds := [InboundHash(tag, hash)];
    assert FirstWithTag(inbounds, tag) == Some(inbounds[0]);
  }

  lemma HashOfA()
    ensures Hash([65]) == Words(0x2b5e6, 0x56130)
  {
    HashOfNothing();
    var _, _ := HashGrows([], 65);
    assert [] + [65] == [65];
    hide Hash;
  }

  class State {
    var emptyConfigHash: string
    var inboundHashes: map<Tag, HashedSet>
    var inboundTags: set<Tag>

    ghost predicate Valid()
      reads this, inboundHashes.Values
    {
      && (forall tag :: tag in inboundHashes ==> inboundHashes[tag].Valid())
      && (forall t, t' :: t in inboundHashes && t' in inboundHashes && t != t' ==>
            inboundHashes[t] != inboundHashes[t'])
      && inboundHashes.Keys <= inboundTags
    }

    /** The tracked users of every inbound. */
    ghost function Users(): map<Tag, set<Text>>
      reads this, inboundHashes.Values
    {
      map tag | tag in inboundHashes :: inboundHashes[tag].members
    }

    constructor ()
      ensures Valid() && fresh(inboundHashes.Values)
      ensures Users() == map[] && inboundTags == {} && emptyConfigHash == ""
    {
      emptyConfigHash, inboundHashes, inboundTags := "", map[], {};
    }

    /** `extractUsersFromConfigLocked`; no list of inbounds is None. */
    method ExtractUsers(hashes: ConfigHash, inbounds: Option<seq<Inbound>>)
      modifies this
      ensures Valid() && fresh(inboundHashes.Values)
      ensures emptyConfigHash == hashes.emptyConfig
      ensures Users() == ExtractedUsers(hashes, if inbounds.Some? then inbounds.value else [])
      ensures inboundTags == Users().Keys
    {
      hide Fold;
      inboundHashes, inboundTags := map[], {};
      emptyConfigHash := hashes.emptyConfig;
      var validTags := set i | 0 <= i < |hashes.inbounds| && hashes.inbounds[i].tag != "" :: hashes.inbounds[i].tag;
      if inbounds.None? {
        return;
      }
      var raw := inbounds.value;
      for i := 0 to |raw|
        invariant Valid() && fresh(inboundHashes.Values)
        invariant emptyConfigHash == hashes.emptyConfig
        invariant Users() == ExtractedUsers(hashes, raw[..i])
        invariant inboundTags == inboundHashes.Keys
      {
        assert raw[..i + 1][..i] == raw[..i];
        assert Tracked(hashes, raw[i]) <==> raw[i].Inbound? && raw[i].tag != "" && raw[i].tag in validTags;
        if raw[i].Malformed? || raw[i].tag == "" || raw[i].tag !in validTags {
          continue;
        }
        TrackInbound(raw[i].tag, raw[i].clients);
      }
      assert raw[..|raw|] == raw;
    }

    method TrackInbound(tag: Tag, clients: seq<Text>)
      requires Valid()
      modifies this
      ensures Valid() && fresh(inboundHashes.Values - old(inboundHashes.Values))
      ensures emptyConfigHash == old(emptyConfigHash)
      ensures Users() == old(Users())[tag := ClientIds(clients)]
      ensures inboundTags == old(inboundTags) + {tag} && inboundHashes.Keys == old(inboundHashes.Keys) + {tag}
    {
      hide Fold;
      var ids := NonEmptyIds(clients);
      var users := HashedSet.FromItems(ids);
      Track(tag, users);
    }

    method Track(tag: Tag, users: HashedSet)
      requires Valid() && users.Valid() && users !in inboundHashes.Values
      modifies this`inboundHashes, this`inboundTags
      ensures Valid() && inboundHashes == old(inboundHashes)[tag := users]
      ensures Users() == old(Users())[tag := users.members] && inboundTags == old(inboundTags) + {tag}
    {
      hide Fold;
      inboundHashes := inboundHashes[tag := users];
      inboundTags := inboundTags + {tag};
    }

    /** `extractClientIDs`. */
    static method NonEmptyIds(clients: seq<Text>) returns (ids: seq<Text>)
      ensures (set x | x in ids) == ClientIds(clients)
    {
      ids := [];
      for i := 0 to |clients|
        invariant (set x | x in ids) == ClientIds(clients[..i])
      {
        ghost var before := ids;
        assert clients[..i + 1] == clients[..i] + [clients[i]];
        assert forall x :: x in clients[..i + 1] <==> x in clients[..i] || x == clients[i];
        assert forall x :: x in before <==> x in ClientIds(clients[..i]) by {
          assert forall x :: x in before <==> x in (set y | y in before);
        }
        if clients[i] != [] {
          ids := ids + [clients[i]];
        }
      }
      assert clients[..|clients|] == clients;
    }

    /** `isNeedRestartCoreLocked`. */
    method IsNeedRestartCore(incoming: ConfigHash) returns (restart: bool)
      requires Valid()
      ensures restart <==> !UpToDate(emptyConfigHash, Users(), incoming)
    {
      hide Fold;
      if emptyConfigHash == "" {
        return true;
      }
      if incoming.emptyConfig != emptyConfigHash {
        return true;
      }
      assert |Users()| == |inboundHashes| by {
        assert Users().Keys == inboundHashes.Keys;
      }
      if |incoming.inbounds| != |inboundHashes| {
        return true;
      }
      var rest := inboundHashes.Keys;
      while rest != {}
        invariant rest <= inboundHashes.Keys
        invariant forall tag :: tag in inboundHashes && tag !in rest ==>
                    var entry := FirstWithTag(incoming.inbounds, tag);
                    entry.Some? && entry.value.hash == Hash64String(Fold(inboundHashes[tag].members))
        decreases |rest|
      {
        var tag :| tag in rest;
        var users := inboundHashes[tag];
        var entry := FindIncoming(incoming.inbounds, tag);
        assert tag in Users();
        if entry.None? {
          return true;
        }
        if Hash64String(Words(users.hashHigh, users.hashLow)) != entry.value.hash {
          return true;
        }
        rest := rest - {tag};
      }
      return false;
    }

    static method FindIncoming(inbounds: seq<InboundHash>, tag: Tag) returns (entry: Option<InboundHash>)
      ensures entry == FirstWithTag(inbounds, tag)
    {
      for i := 0 to |inbounds|
        invariant FirstWithTag(inbounds, tag) == FirstWithTag(inbounds[i..], tag)
      {
        assert inbounds[i..][1..] == inbounds[i + 1..];
        if inbounds[i].tag == tag {
          return Some(inbounds[i]);
        }
      }
      return None;
    }

    /** `AddInboundTag`. */
    method AddInboundTag(tag: Tag)
      requires Valid()
      modifies this
      ensures Valid() && inboundHashes == old(inboundHashes) && emptyConfigHash == old(emptyConfigHash)
      ensures Users() == old(Users())
      ensures inboundTags == if tag == "" then old(inboundTags) else old(inboundTags) + {tag}
    {
      if tag == "" {
        return;
      }
      inboundTags := inboundTags + {tag};
    }

    /** `AddUserToInboundHash`. */
    method AddUserToInboundHash(inboundTag: Tag, userUUID: Text)
      requires Valid()
      modifies this, inboundHashes.Values
      ensures Valid() && fresh(inboundHashes.Values - old(inboundHashes.Values))
      ensures emptyConfigHash == old(emptyConfigHash)
      ensures inboundTag == "" || userUUID == [] ==> Users() == old(Users()) && inboundTags == old(inboundTags)
      ensures inboundTag != "" && userUUID != [] ==>
                && inboundTags == old(inboundTags) + {inboundTag}
                && Users() == old(Users())[inboundTag := UsersAt(old(Users()), inboundTag) + {userUUID}]
    {
      hide Fold;
      if inboundTag == "" || userUUID == [] {
        return;
      }
      ghost var before := Users();
      if inboundTag !in inboundHashes {
        TrackEmpty(inboundTag);
      }
      ghost var between := Users();
      AddAndTag(inboundTag, userUUID);
      UsersAtAdded(before, between, inboundTag, userUUID);
    }

    static lemma UsersAtAdded(before: map<Tag, set<Text>>, between: map<Tag, set<Text>>, tag: Tag, uuid: Text)
      requires between == if tag in before then before else before[tag := {}]
      ensures between[tag := between[tag] + {uuid}] == before[tag := UsersAt(before, tag) + {uuid}]
    {
    }

    method AddAndTag(tag: Tag, userUUID: Text)
      requires Valid() && tag in inboundHashes
      modifies this`inboundTags, inboundHashes[tag]
      ensures Valid() && inboundTags == old(inboundTags) + {tag}
      ensures Users() == old(Users())[tag := old(Users())[tag] + {userUUID}]
    {
      hide Fold;
      AddTo(tag, userUUID);
      inboundTags := inboundTags + {tag};
    }

    method TrackEmpty(tag: Tag)
      requires Valid() && tag !in inboundHashes
      modifies this`inboundHashes, this`inboundTags
      ensures Valid() && fresh(inboundHashes.Values - old(inboundHashes.Values))
      ensures Users() == old(Users())[tag := {}] && inboundTags == old(inboundTags) + {tag}
      ensures tag in inboundHashes
    {
      hide Fold;
      var users := new HashedSet();
      Track(tag, users);
    }

    method AddTo(tag: Tag, userUUID: Text)
      requires Valid() && tag in inboundHashes
      modifies inboundHashes[tag]
      ensures Valid() && Users() == old(Users())[tag := old(Users())[tag] + {userUUID}]
    {
      hide Fold;
      inboundHashes[tag].Add(userUUID);
    }

    method DeleteFrom(tag: Tag, userUUID: Text)
      requires Valid() && tag in inboundHashes
      modifies inboundHashes[tag]
      ensures Valid() && Users() == old(Users())[tag := old(Users())[tag] - {userUUID}]
    {
      hide Fold;
      var _ := inboundHashes[tag].Delete(userUUID);
    }

    /** `RemoveUserFromInboundHash`: an inbound whose last user goes is forgotten altogether. */
    method RemoveUserFromInboundHash(inboundTag: Tag, userUUID: Text)
      requires Valid()
      modifies this, inboundHashes.Values
      ensures Valid() && inboundHashes.Values <= old(inboundHashes.Values)
      ensures emptyConfigHash == old(emptyConfigHash)
      ensures inboundTag == "" || userUUID == [] || inboundTag !in old(Users()) ==>
                Users() == old(Users()) && inboundTags == old(inboundTags)
      ensures inboundTag != "" && userUUID != [] && inboundTag in old(Users()) ==>
                var left := old(Users())[inboundTag] - {userUUID};
                && Users() == (if left == {} then old(Users()) - {inboundTag} else old(Users())[inboundTag := left])
                && inboundTags == (if left == {} then old(inboundTags) - {inboundTag} else old(inboundTags))
    {
      hide Fold;
      if inboundTag == "" || userUUID == [] {
        return;
      }
      if inboundTag !in inboundHashes {
        return;
      }
      DeleteFrom(inboundTag, userUUID);
      if |inboundHashes[inboundTag].members| == 0 {
        Forget(inboundTag);
        UsersForgotten(old(Users()), inboundTag);
      }
    }

    static lemma UsersForgotten(before: map<Tag, set<Text>>, tag: Tag)
      requires tag in before
      ensures before[tag := {}] - {tag} == before - {tag}
    {
    }

    method Forget(tag: Tag)
      requires Valid()
      modifies this`inboundHashes, this`inboundTags
      ensures Valid() && inboundHashes == old(inboundHashes) - {tag}
      ensures Users() == old(Users()) - {tag} && inboundTags == old(inboundTags) - {tag}
      ensures inboundHashes.Values <= old(inboundHashes.Values)
    {
      hide Fold;
      inboundHashes := inboundHashes - {tag};
      inboundTags := inboundTags - {tag};
    }
  }

  function UsersAt(users: map<Tag, set<Text>>, tag: Tag): set<Text> {
    if tag in users then users[tag] else {}
  }
}
