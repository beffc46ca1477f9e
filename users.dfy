/** The dashboard's search: the list of users that the page shows is the
    fetched list, narrowed to the users whose lower-cased first name contains
    the trimmed search text. */
module UserFilter {
  import opened JsString

  /** The fields of a fetched user that the dashboard reads: `id` keys the
      rendered card, `first_name` is searched. */
  datatype User = User(id: int, firstName: string)

  /** The filter callback, `user.first_name.toLowerCase().includes(needle)`:
      the needle occurs at some position of the lower-cased first name, so the
      empty needle matches everyone. */
  predicate Matches(u: User, needle: string)
    ensures Matches(u, needle) <==> exists i :: OccursAt(ToLower(u.firstName), needle, i)
    ensures needle == "" ==> Matches(u, needle)
  {
    Includes(ToLower(u.firstName), needle)
  }

  /** `users.filter(u => Matches(u, needle))`: the users that match, in their
      original order. */
  function KeepMatching(users: seq<User>, needle: string): (r: seq<User>)
    ensures |r| <= |users|
    ensures forall u :: u in r <==> u in users && Matches(u, needle)
  {
    if users == [] then []
    else (if Matches(users[0], needle) then [users[0]] else []) + KeepMatching(users[1..], needle)
  }

  /** The memoised `filteredUserList`: the whole list while the search box is
      empty, otherwise the users whose first name matches the trimmed text. */
  function FilteredUsers(users: seq<User>, filter: string): (r: seq<User>)
    ensures |r| <= |users|
    ensures forall u :: u in r <==> u in users && (filter == "" || Matches(u, Trim(filter)))
  {
    if filter != "" then KeepMatching(users, Trim(filter)) else users
  }

  /** Every user matches the empty needle, so filtering by it keeps the list. */
  lemma {:induction false} KeepMatchingEmptyNeedle(users: seq<User>)
    ensures KeepMatching(users, "") == users
  {
    if users != [] {
      assert OccursAt(ToLower(users[0].firstName), "", 0);
      KeepMatchingEmptyNeedle(users[1..]);
    }
  }

  /** The `filter !== ''` guard changes nothing: with an empty search text the
      callback would have kept every user too. */
  lemma {:induction false} GuardIsRedundant(users: seq<User>, filter: string)
    ensures FilteredUsers(users, filter) == KeepMatching(users, Trim(filter))
  {
    if filter == "" {
      KeepMatchingEmptyNeedle(users);
    }
  }

  /** When nobody matches, the filter keeps nobody. */
  lemma {:induction false} KeepMatchingNone(users: seq<User>, needle: string)
    requires forall u :: u in users ==> !Matches(u, needle)
    ensures KeepMatching(users, needle) == []
  {
    if users != [] {
      KeepMatchingNone(users[1..], needle);
    }
  }

  /** A search box holding nothing but whitespace shows every user. */
  lemma {:induction false} WhitespaceFilterKeepsAll(users: seq<User>, filter: string)
    requires AllWhitespace(filter)
    ensures FilteredUsers(users, filter) == users
  {
    GuardIsRedundant(users, filter);
    KeepMatchingEmptyNeedle(users);
  }

  /** The search text is trimmed but never lower-cased, while the names it
      is compared with are: a trimmed search text holding an ASCII upper-case
      letter matches nobody. */
  lemma {:induction false} UppercaseFilterMatchesNone(users: seq<User>, filter: string, k: int)
    requires 0 <= k < |Trim(filter)| && IsAsciiUpper(Trim(filter)[k])
    ensures FilteredUsers(users, filter) == []
  {
    var needle := Trim(filter);
    forall u | u in users
      ensures !Matches(u, needle)
    {
      UpperNeverInLower(u.firstName, needle, k);
    }
    KeepMatchingNone(users, needle);
  }

  /** `idx` lists, in increasing order, positions of `users` whose entries make
      up `r`. */
  ghost predicate SelectedAt(users: seq<User>, r: seq<User>, idx: seq<int>) {
    |idx| == |r|
    && (forall k :: 0 <= k < |idx| ==> 0 <= idx[k] < |users| && r[k] == users[idx[k]])
    && (forall k, l :: 0 <= k < l < |idx| ==> idx[k] < idx[l])
  }

  /** The positions of a selection from `users[1..]`, moved one up, select
      the same entries from `users`; position 0 is not among them. */
  lemma ShiftSelection(users: seq<User>, r: seq<User>, idx: seq<int>) returns (shifted: seq<int>)
    requires users != [] && SelectedAt(users[1..], r, idx)
    ensures SelectedAt(users, r, shifted) && 0 !in shifted
    ensures forall j :: 1 <= j < |users| ==> (j in shifted <==> j - 1 in idx)
  {
    shifted := seq(|idx|, k requires 0 <= k < |idx| => idx[k] + 1);
    forall j | 1 <= j < |users| ensures j in shifted <==> j - 1 in idx {
      if j - 1 in idx {
        var k :| 0 <= k < |idx| && idx[k] == j - 1;
        assert shifted[k] == j;
      }
    }
  }

  /** Putting the first user in front of a selection from `users` that avoids
      position 0 gives a selection again. */
  lemma PrependSelection(users: seq<User>, r: seq<User>, idx: seq<int>)
    requires users != [] && SelectedAt(users, r, idx) && 0 !in idx
    ensures SelectedAt(users, [users[0]] + r, [0] + idx)
  {
    var r', idx' := [users[0]] + r, [0] + idx;
    forall k | 1 <= k < |idx'| ensures 0 < idx'[k] < |users| && r'[k] == users[idx'[k]] {
      assert idx'[k] == idx[k - 1] && r'[k] == r[k - 1];
      assert idx[k - 1] in idx;
    }
  }

  /** `KeepMatching` is an order-preserving selection: its result is `users`
      at the increasing positions `idx`, and a position is among them exactly
      when the user there matches. */
  lemma {:induction false} KeepMatchingSelects(users: seq<User>, needle: string) returns (idx: seq<int>)
    ensures SelectedAt(users, KeepMatching(users, needle), idx)
    ensures forall j :: 0 <= j < |users| ==> (j in idx <==> Matches(users[j], needle))
  {
    if users == [] {
      idx := [];
    } else {
      var tail := KeepMatching(users[1..], needle);
      var rest := KeepMatchingSelects(users[1..], needle);
      var shifted := ShiftSelection(users, tail, rest);
      assert forall j :: 1 <= j < |users| ==> users[1..][j - 1] == users[j];
      if Matches(users[0], needle) {
        idx := [0] + shifted;
        assert KeepMatching(users, needle) == [users[0]] + tail;
        PrependSelection(users, tail, shifted);
      } else {
        idx := shifted;
        assert KeepMatching(users, needle) == tail;
      }
    }
  }

  /** The filtered list is `users` at the increasing positions `idx`, and a
      position is kept exactly when the user there matches the trimmed search
      text (or the search box is empty). */
  lemma FilteredUsersSelects(users: seq<User>, filter: string) returns (idx: seq<int>)
    ensures SelectedAt(users, FilteredUsers(users, filter), idx)
    ensures forall j :: 0 <= j < |users| ==> (j in idx <==> Matches(users[j], Trim(filter)))
  {
    GuardIsRedundant(users, filter);
    idx := KeepMatchingSelects(users, Trim(filter));
  }
}
