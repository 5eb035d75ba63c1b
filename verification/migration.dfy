/** The one-off script that rewrites every user's chat-provider profile: admins keep the `admin`
    role, everyone else has the role cleared, and the updates go out in batches of at most 100. The
    provider call itself is not modelled: the model stops at the batches it would be given. */
module Migration {
  import opened Wrappers
  import opened Seqs
  import opened UserModel
  import Admin

  /** The provider's own batch limit. */
  const BatchSize: nat := 100

  const FallbackName := "User"
  const AdminRoleName := "admin"

  /** One upsert: `role` is `"admin"` or null. */
  datatype StreamUpdate = StreamUpdate(id: Id, name: string, image: string, role: Option<string>)

  /** `user.role === "admin"`. */
  predicate IsAdminDoc(d: (Id, User))
  {
    d.1.role == Some(Admin)
  }

  /** The update for one user: the stored name or `"User"` when it is empty, the stored picture,
      and the admin role exactly for admins. */
  function UpdateFor(d: (Id, User)): (u: StreamUpdate)
    ensures u.id == d.0 && u.image == d.1.profilePic
    ensures u.name != ""
    ensures d.1.fullName != "" ==> u.name == d.1.fullName
    ensures u.role == Some(AdminRoleName) <==> IsAdminDoc(d)
    ensures u.role.None? <==> Admin.CountedDoc(d)
  {
    var name := if d.1.fullName != "" then d.1.fullName else FallbackName;
    StreamUpdate(d.0, name, d.1.profilePic, if IsAdminDoc(d) then Some(AdminRoleName) else None)
  }

  /** The loop over all users: one update per user, in order, and the two counters the script
      reports. The regular users are exactly the ones the admin dashboard counts as users. */
  method BuildUpdates(users: seq<(Id, User)>) returns (updates: seq<StreamUpdate>, adminCount: nat, regularCount: nat)
    ensures |updates| == |users|
    ensures forall i :: 0 <= i < |users| ==> updates[i] == UpdateFor(users[i])
    ensures adminCount == |Filter(users, IsAdminDoc)|
    ensures regularCount == |Filter(users, Admin.CountedDoc)|
    ensures adminCount + regularCount == |users|
  {
    updates, adminCount, regularCount := [], 0, 0;
    var i := 0;
    while i < |users|
      invariant 0 <= i <= |users|
      invariant updates == UpdatesOf(users[..i])
      invariant adminCount == CountIf(users[..i], IsAdminDoc)
      invariant regularCount == CountIf(users[..i], Admin.CountedDoc)
      invariant adminCount + regularCount == i
    {
      PrefixStep(users, i);
      updates := updates + [UpdateFor(users[i])];
      if IsAdminDoc(users[i]) {
        adminCount := adminCount + 1;
      } else {
        regularCount := regularCount + 1;
      }
      i := i + 1;
    }
    assert users[..i] == users;
    CountIfIsFilter(users, IsAdminDoc);
    CountIfIsFilter(users, Admin.CountedDoc);
  }

  /** One more user adds one update and one to exactly one of the two counters. */
  lemma PrefixStep(users: seq<(Id, User)>, i: nat)
    requires i < |users|
    ensures UpdatesOf(users[..i + 1]) == UpdatesOf(users[..i]) + [UpdateFor(users[i])]
    ensures CountIf(users[..i + 1], IsAdminDoc) == CountIf(users[..i], IsAdminDoc) + if IsAdminDoc(users[i]) then 1 else 0
    ensures CountIf(users[..i + 1], Admin.CountedDoc) == CountIf(users[..i], Admin.CountedDoc) + if Admin.CountedDoc(users[i]) then 1 else 0
    ensures IsAdminDoc(users[i]) <==> !Admin.CountedDoc(users[i])
  {
    assert users[..i + 1][..i] == users[..i];
    assert users[..i + 1] == users[..i] + [users[i]];
    UpdatesOfSnoc(users[..i], users[i]);
  }

  /** How many elements satisfy `p`, counted from the back. */
  function CountIf<T>(s: seq<T>, p: T -> bool): nat
  {
    if s == [] then 0 else CountIf(s[..|s| - 1], p) + if p(s[|s| - 1]) then 1 else 0
  }

  lemma {:induction false} CountIfIsFilter<T(!new)>(s: seq<T>, p: T -> bool)
    ensures CountIf(s, p) == |Filter(s, p)|
  {
    if s != [] {
      var init := s[..|s| - 1];
      CountIfIsFilter(init, p);
      assert s == init + [s[|s| - 1]];
      CountSnoc(init, s[|s| - 1], p);
    }
  }

  /** The updates for a run of users, one each, in order. */
  function UpdatesOf(users: seq<(Id, User)>): (r: seq<StreamUpdate>)
    ensures |r| == |users|
    ensures forall i :: 0 <= i < |users| ==> r[i] == UpdateFor(users[i])
  {
    seq(|users|, i requires 0 <= i < |users| => UpdateFor(users[i]))
  }

  lemma UpdatesOfSnoc(users: seq<(Id, User)>, d: (Id, User))
    ensures UpdatesOf(users + [d]) == UpdatesOf(users) + [UpdateFor(d)]
  {
  }

  /** Appending one element adds one match exactly when it matches. */
  lemma CountSnoc<T(!new)>(s: seq<T>, x: T, p: T -> bool)
    ensures |Filter(s + [x], p)| == |Filter(s, p)| + if p(x) then 1 else 0
  {
    FilterConcat(s, [x], p);
    assert [x][1..] == [];
  }

  /** The batches laid end to end. */
  function Flatten<T>(bs: seq<seq<T>>): seq<T>
  {
    if bs == [] then [] else Flatten(bs[..|bs| - 1]) + bs[|bs| - 1]
  }

  lemma FlattenSnoc<T>(bs: seq<seq<T>>, b: seq<T>)
    ensures Flatten(bs + [b]) == Flatten(bs) + b
  {
    assert (bs + [b])[..|bs|] == bs;
  }

  /** A multiple of the batch size that covers `n` by less than a batch is the batch count rounded
      up. */
  lemma BatchCount(n: nat, k: nat)
    requires n <= k * BatchSize < n + BatchSize
    ensures k == (n + BatchSize - 1) / BatchSize
  {
  }

  /** `for (i = 0; i < n; i += 100) updates.slice(i, i + 100)`: the updates cut, in order, into
      consecutive batches of 100, the last one shorter when the count is not a multiple of 100. */
  method Batches<T>(updates: seq<T>) returns (batches: seq<seq<T>>)
    ensures Flatten(batches) == updates
    ensures |batches| == (|updates| + BatchSize - 1) / BatchSize
    ensures forall k :: 0 <= k < |batches| ==> 1 <= |batches[k]| <= BatchSize
    ensures forall k :: 0 <= k < |batches| - 1 ==> |batches[k]| == BatchSize
  {
    batches := [];
    var i := 0;
    while i < |updates|
      invariant i == |batches| * BatchSize
      invariant i <= |updates| || (i < |updates| + BatchSize && batches != [])
      invariant Flatten(batches) == updates[..if i <= |updates| then i else |updates|]
      invariant forall k :: 0 <= k < |batches| ==> 1 <= |batches[k]| <= BatchSize
      invariant forall k :: 0 <= k < |batches| - 1 ==> |batches[k]| == BatchSize
      invariant i < |updates| ==> forall k :: 0 <= k < |batches| ==> |batches[k]| == BatchSize
    {
      var end := if i + BatchSize <= |updates| then i + BatchSize else |updates|;
      var batch := updates[i..end];
      FlattenSnoc(batches, batch);
      assert updates[..end] == updates[..i] + batch;
      batches := batches + [batch];
      i := i + BatchSize;
    }
    assert Flatten(batches) == updates;
    BatchCount(|updates|, |batches|);
  }
}
