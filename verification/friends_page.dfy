/** The friends page's search box: which of the caller's friends it lists for a query, and which
    fields of a friend the backend's friends list gives it to search. */
module FriendsPage {
  import opened Wrappers
  import opened Text
  import opened Seqs
  import opened UserModel

  /** A friend as the page receives it: each searched field may be absent from the document. */
  datatype FriendCard = FriendCard(
    fullName: Option<string>,
    location: Option<string>,
    nativeLanguage: Option<string>,
    learningLanguage: Option<string>,
    bio: Option<string>)

  /** `field?.toLowerCase().includes(query)`: an absent field never matches. */
  predicate FieldMatches(field: Option<string>, query: string)
  {
    field.Some? && Contains(ToLower(field.value), query)
  }

  predicate CardMatches(c: FriendCard, query: string)
  {
    || FieldMatches(c.fullName, query)
    || FieldMatches(c.location, query)
    || FieldMatches(c.nativeLanguage, query)
    || FieldMatches(c.learningLanguage, query)
    || FieldMatches(c.bio, query)
  }

  /** `searchQuery.toLowerCase().trim()`. */
  function Query(search: string): string
  {
    Trim(ToLower(search))
  }

  /** Lowering the case moves no character into or out of the white-space class. */
  lemma LowerKeepsSpace(s: string)
    ensures AllSpace(ToLower(s)) <==> AllSpace(s)
  {
    assert forall i :: 0 <= i < |s| ==> (IsSpace(ToLower(s)[i]) <==> IsSpace(s[i]));
  }

  /** filteredFriends: a blank query lists every friend as received; any other query lists, in
      their original order, the friends one of whose five fields contains the query once both are
      lowercased and the query is trimmed. A non-blank query is never empty once trimmed. */
  function FilterFriends(friends: seq<FriendCard>, search: string): (r: seq<FriendCard>)
    ensures AllSpace(search) ==> r == friends
    ensures !AllSpace(search) ==> Query(search) != ""
    ensures !AllSpace(search) ==> forall c :: c in r <==> c in friends && CardMatches(c, Query(search))
    ensures IsSubsequence(r, friends)
  {
    if Trim(search) == "" then
      assert IsSubsequence(friends, friends) by { FilterAll(friends, (c: FriendCard) => true); FilterIsSubsequence(friends, (c: FriendCard) => true); }
      friends
    else
      var q := Query(search);
      LowerKeepsSpace(search);
      FilterIsSubsequence(friends, (c: FriendCard) => CardMatches(c, q));
      Filter(friends, (c: FriendCard) => CardMatches(c, q))
  }

  /** Searching the listed friends again with the same query changes nothing. */
  lemma {:induction false} FilterFriendsIdempotent(friends: seq<FriendCard>, search: string)
    ensures FilterFriends(FilterFriends(friends, search), search) == FilterFriends(friends, search)
  {
    if !AllSpace(search) {
      var q := Query(search);
      var p := (c: FriendCard) => CardMatches(c, q);
      var r := FilterFriends(friends, search);
      assert r == Filter(friends, p);
      assert forall i :: 0 <= i < |r| ==> p(r[i]) by {
        forall i | 0 <= i < |r| ensures p(r[i]) {
          assert r[i] in r;
        }
      }
      FilterAll(r, p);
    }
  }

  /** A friend is never listed for a non-blank query through a field it does not have. */
  lemma MissingFieldsNeverMatch(c: FriendCard, query: string)
    ensures (&& c.fullName.None? && c.location.None? && c.nativeLanguage.None?
             && c.learningLanguage.None? && c.bio.None?) ==> !CardMatches(c, query)
    ensures CardMatches(c, query) ==>
              exists f :: f in [c.fullName, c.location, c.nativeLanguage, c.learningLanguage, c.bio] && FieldMatches(f, query)
  {
    var fs := [c.fullName, c.location, c.nativeLanguage, c.learningLanguage, c.bio];
    if CardMatches(c, query) {
      if FieldMatches(c.fullName, query) { assert fs[0] in fs; }
      else if FieldMatches(c.location, query) { assert fs[1] in fs; }
      else if FieldMatches(c.nativeLanguage, query) { assert fs[2] in fs; }
      else if FieldMatches(c.learningLanguage, query) { assert fs[3] in fs; }
      else { assert fs[4] in fs; }
    }
  }

  lemma LowerIdempotent(s: string)
    ensures ToLower(ToLower(s)) == ToLower(s)
  {
  }

  /** The search ignores the case of the query. */
  lemma SearchIgnoresCase(friends: seq<FriendCard>, search: string)
    ensures FilterFriends(friends, ToLower(search)) == FilterFriends(friends, search)
  {
    LowerIdempotent(search);
    LowerKeepsSpace(search);
  }

  // ---------------------------------------------------------------------------------------------
  // The friends list the page searches

  /** getMyFriends populates each friend with its name, picture and two languages only: the
      location and the bio never reach the page. */
  function ListedCard(u: User): (c: FriendCard)
    ensures c.location.None? && c.bio.None?
    ensures c.fullName == Some(u.fullName)
    ensures c.nativeLanguage == Some(u.nativeLanguage) && c.learningLanguage == Some(u.learningLanguage)
  {
    FriendCard(Some(u.fullName), None, Some(u.nativeLanguage), Some(u.learningLanguage), None)
  }

  /** A friend with every searched field, as the search box's hint (name, location, or language) and
      its filter expect. */
  function FullCard(u: User): (c: FriendCard)
    ensures c.fullName == Some(u.fullName) && c.location == Some(u.location) && c.bio == Some(u.bio)
    ensures c.nativeLanguage == Some(u.nativeLanguage) && c.learningLanguage == Some(u.learningLanguage)
  {
    FriendCard(Some(u.fullName), Some(u.location), Some(u.nativeLanguage), Some(u.learningLanguage), Some(u.bio))
  }

  /** As the friends list is served, the location and bio clauses of the filter are dead: a listed
      friend matches exactly when its name or a language does. */
  lemma ListedCardIgnoresLocationAndBio(u: User, query: string)
    ensures CardMatches(ListedCard(u), query) <==>
              || Contains(ToLower(u.fullName), query)
              || Contains(ToLower(u.nativeLanguage), query)
              || Contains(ToLower(u.learningLanguage), query)
  {
  }

  lemma LongerNotContained(s: string, q: string)
    requires |q| > |s|
    ensures !Contains(s, q)
  {
  }

  /** A string without capital letters is its own lower case. */
  lemma {:induction false} LowerOfLower(s: string)
    requires forall i :: 0 <= i < |s| ==> !('A' <= s[i] <= 'Z')
    ensures ToLower(s) == s
  {
    if s != [] {
      LowerOfLower(s[1..]);
    }
  }

  /** `"paris"` is already lower case, has no surrounding white space, and is what `"Paris"`
      becomes. */
  lemma ParisQuery()
    ensures ToLower("Paris") == "paris" && Query("paris") == "paris"
  {
    var p := "paris";
    assert forall i :: 0 <= i < |p| ==> !('A' <= p[i] <= 'Z');
    LowerOfLower(p);
    assert !IsSpace(p[0]) && !IsSpace(p[4]);
    var l := ToLower("Paris");
    assert l[0] == 'p';
    assert l[1..] == p[1..];
    assert l == p;
  }

  /** A friend in Paris whose name and languages are shorter than the query is not found by
      searching "paris" as the list is served, though the friend's location contains it. */
  lemma LocationSearchMissesListedFriend(u: User)
    requires u.location == "Paris"
    requires |u.fullName| < 5 && |u.nativeLanguage| < 5 && |u.learningLanguage| < 5
    ensures Contains(ToLower(u.location), "paris")
    ensures FilterFriends([ListedCard(u)], "paris") == []
  {
    ParisQuery();
    assert "paris" <= ToLower(u.location)[0..];
    LongerNotContained(ToLower(u.fullName), "paris");
    LongerNotContained(ToLower(u.nativeLanguage), "paris");
    LongerNotContained(ToLower(u.learningLanguage), "paris");
    assert !CardMatches(ListedCard(u), "paris");
    assert !AllSpace("paris") by { assert !IsSpace("paris"[0]); }
  }

  /** With the full card, a non-blank search lists a friend exactly when any of the five fields
      contains the query; in particular searching by location or bio finds the friend. */
  lemma FullCardSearchFindsEveryField(u: User, search: string)
    requires !AllSpace(search)
    ensures var q := Query(search);
            FullCard(u) in FilterFriends([FullCard(u)], search) <==>
              || Contains(ToLower(u.fullName), q)
              || Contains(ToLower(u.location), q)
              || Contains(ToLower(u.nativeLanguage), q)
              || Contains(ToLower(u.learningLanguage), q)
              || Contains(ToLower(u.bio), q)
  {
    FullCardMatches(u, Query(search));
    SingletonSearch(FullCard(u), search);
  }

  /** The full card matches exactly when one of its five fields does. */
  lemma FullCardMatches(u: User, q: string)
    ensures CardMatches(FullCard(u), q) <==>
              || Contains(ToLower(u.fullName), q)
              || Contains(ToLower(u.location), q)
              || Contains(ToLower(u.nativeLanguage), q)
              || Contains(ToLower(u.learningLanguage), q)
              || Contains(ToLower(u.bio), q)
  {
  }

  /** Searching a one-friend list finds the friend exactly when the friend matches. */
  lemma SingletonSearch(c: FriendCard, search: string)
    requires !AllSpace(search)
    ensures c in FilterFriends([c], search) <==> CardMatches(c, Query(search))
  {
  }
}
