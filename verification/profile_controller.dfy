/** Profiles: create-or-update (`createProfile`) and reading the caller's profile. A user has at
    most one profile. */
module ProfileController {
  import opened Wrappers
  import opened Store
  import Seqs

  /** `Profile.findOne({ userId })`. */
  function FindProfile(profiles: seq<Profile>, userId: UserId): (r: Option<nat>)
    ensures r.Some? ==> r.value < |profiles| && profiles[r.value].userId == userId
    ensures r.None? <==> forall i :: 0 <= i < |profiles| ==> profiles[i].userId != userId
  {
    Seqs.FirstIndex(profiles, (p: Profile) => p.userId == userId)
  }

  /** A value JavaScript treats as truthy here: present and not the empty string. */
  predicate Truthy(v: Option<string>) {
    v.Some? && v.value != ""
  }

  /** `createProfile`: 400 and no change unless bio, uploaded image and user id are all given;
      otherwise the user's existing profile gets the new bio and image (200), or, when the user has
      none, exactly one profile is created (201). Either way the user then has exactly one profile,
      holding the given bio and image. */
  method CreateProfile(db: Database, userId: Option<UserId>, bio: Option<string>, image: Option<string>)
    returns (status: int)
    requires db.Valid()
    modifies db`profiles, db`nextId
    ensures db.Valid()
    ensures !(Truthy(bio) && Truthy(image) && Truthy(userId)) ==>
      status == 400 && db.profiles == old(db.profiles) && db.nextId == old(db.nextId)
    ensures Truthy(bio) && Truthy(image) && Truthy(userId) ==>
      match FindProfile(old(db.profiles), userId.value)
      case Some(k) =>
        && status == 200
        && db.profiles == old(db.profiles)[k := old(db.profiles)[k].(bio := bio.value, image := image.value)]
        && db.nextId == old(db.nextId)
      case None =>
        && status == 201
        && db.profiles == old(db.profiles) + [Profile(old(db.nextId), userId.value, bio.value, image.value)]
        && db.nextId == old(db.nextId) + 1
    ensures Truthy(bio) && Truthy(image) && Truthy(userId) ==>
      exists k :: 0 <= k < |db.profiles| && db.profiles[k].userId == userId.value
        && db.profiles[k].bio == bio.value && db.profiles[k].image == image.value
  {
    if !Truthy(bio) || !Truthy(image) || !Truthy(userId) {
      return 400;
    }
    var found := FindProfile(db.profiles, userId.value);
    if found.Some? {
      var k := found.value;
      var updated := db.profiles[k].(bio := bio.value, image := image.value);
      IdsBelowUpdate(db.profiles, ProfileId, db.nextId, k, updated);
      db.profiles := db.profiles[k := updated];
      assert db.profiles[k].userId == userId.value;
      return 200;
    }
    var profile := Profile(db.nextId, userId.value, bio.value, image.value);
    IdsBelowAppend(db.profiles, ProfileId, db.nextId, profile);
    db.profiles := db.profiles + [profile];
    assert db.profiles[|db.profiles| - 1] == profile;
    db.nextId := db.nextId + 1;
    status := 201;
  }

  /** `getMyProfile`: the caller's profile, or none (404). */
  function GetMyProfile(profiles: seq<Profile>, userId: UserId): (r: Option<Profile>)
    ensures r.None? <==> forall i :: 0 <= i < |profiles| ==> profiles[i].userId != userId
    ensures r.Some? ==> r.value in profiles && r.value.userId == userId
  {
    match FindProfile(profiles, userId)
    case None => None
    case Some(k) => Some(profiles[k])
  }

  /** With one profile per user, the profile read back is the only profile of the user. */
  lemma GetMyProfileUnique(profiles: seq<Profile>, userId: UserId)
    requires ProfileUnique(profiles)
    ensures GetMyProfile(profiles, userId).Some? ==>
      forall i :: 0 <= i < |profiles| && profiles[i].userId == userId ==>
        profiles[i] == GetMyProfile(profiles, userId).value
  {
  }
}
