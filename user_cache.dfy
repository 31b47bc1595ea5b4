/**
  The user-details cache behind `get_user_details` (jarvis.py:53-78): a
  table from Slack user ids to e-mail addresses, filled on a miss from the
  workspace roster (`users.list`).
*/
module UserCache {
  import opened Wrappers

  /** A roster entry; `email` is `None` when the profile has no address. */
  datatype Member = Member(id: string, email: Option<string>)

  /** No member with this id lacks an address (otherwise reading it raises). */
  predicate AllAddressed(members: seq<Member>, username: string) {
    forall k | 0 <= k < |members| :: members[k].id == username ==> members[k].email.Some?
  }

  /** The address of the last member with this id, if any. */
  function LastEmail(members: seq<Member>, username: string): (e: Option<string>)
    requires AllAddressed(members, username)
    ensures e.Some? <==> exists k | 0 <= k < |members| :: members[k].id == username
    ensures e.Some? ==> Member(username, e) in members
  {
    if members == [] then None
    else
      var last := members[|members| - 1];
      if last.id == username then last.email
      else LastEmail(members[..|members| - 1], username)
  }

  /** What the roster yields for a miss: nothing when the roster could not be
      read, when a matching member has no address, or when no member matches. */
  function FromRoster(roster: Option<seq<Member>>, username: string): Option<string> {
    match roster
    case None => None
    case Some(members) =>
      if AllAddressed(members, username) then LastEmail(members, username) else None
  }

  /** The address `get_user_details` returns for this table and roster. */
  function Lookup(table: map<string, string>, username: string, roster: Option<seq<Member>>): (e: Option<string>)
    ensures username in table ==> e == Some(table[username])
    ensures e.Some? ==> username in table || (roster.Some? && Member(username, e) in roster.value)
  {
    if username in table then Some(table[username]) else FromRoster(roster, username)
  }

  /** The table afterwards: a found address is stored on a miss, and nothing
      else changes. */
  function Stored(table: map<string, string>, username: string, roster: Option<seq<Member>>): (t: map<string, string>)
    ensures forall k <- table :: k in t && t[k] == table[k]
    ensures forall k <- t :: k in table || k == username
    ensures username in t <==> Lookup(table, username, roster).Some?
    ensures username in t ==> Some(t[username]) == Lookup(table, username, roster)
  {
    if username !in table && FromRoster(roster, username).Some? then
      table[username := FromRoster(roster, username).value]
    else table
  }

  /** The `SlackUsers` table. */
  class UserTable {
    var emails: map<string, string>

    /** Opens the table: `CREATE TABLE IF NOT EXISTS` keeps whatever an
        earlier run stored, so the table starts as `stored`. */
    constructor (stored: map<string, string>)
      ensures emails == stored
    {
      emails := stored;
    }

    /** `get_user_details(username, client)`, with the outcome of `users.list`
        as `roster`. */
    method GetUserDetails(username: string, roster: Option<seq<Member>>) returns (email: Option<string>)
      modifies this
      ensures email == Lookup(old(emails), username, roster)
      ensures emails == Stored(old(emails), username, roster)
    {
      if username in emails {
        return Some(emails[username]);
      }
      if roster.None? {
        return None;
      }
      var members := roster.value;
      var userEmail: Option<string> := None;
      for k := 0 to |members|
        invariant AllAddressed(members[..k], username)
        invariant userEmail == LastEmail(members[..k], username)
      {
        assert members[..k + 1][..k] == members[..k];
        if members[k].id == username {
          if members[k].email.None? {
            assert !AllAddressed(members, username) by {
              assert members[k].id == username && members[k].email.None?;
            }
            return None;
          }
          userEmail := members[k].email;
        }
      }
      assert members[..|members|] == members;
      if userEmail.None? {
        return None;
      }
      emails := emails[username := userEmail.value];
      return userEmail;
    }
  }

  // ---------------------------------------------------------------------
  // Properties

  /** A hit answers from the table whatever the roster says, and stores nothing. */
  lemma HitIgnoresRoster(table: map<string, string>, username: string, r1: Option<seq<Member>>, r2: Option<seq<Member>>)
    requires username in table
    ensures Lookup(table, username, r1) == Lookup(table, username, r2) == Some(table[username])
    ensures Stored(table, username, r1) == table
  {
  }

  /** Once an address has been returned, the next call for that user is
      answered from the table, even when the roster cannot be read. */
  lemma SecondCallHits(table: map<string, string>, username: string, r1: Option<seq<Member>>, r2: Option<seq<Member>>)
    requires Lookup(table, username, r1).Some?
    ensures Lookup(Stored(table, username, r1), username, r2) == Lookup(table, username, r1)
    ensures Stored(Stored(table, username, r1), username, r2) == Stored(table, username, r1)
  {
  }

  /** The address found is that of the last member with the name. */
  lemma {:induction false} LastEmailIsLast(members: seq<Member>, username: string)
    requires AllAddressed(members, username) && LastEmail(members, username).Some?
    ensures exists k | 0 <= k < |members| ::
              members[k].id == username && members[k].email == LastEmail(members, username)
              && forall j | k < j < |members| :: members[j].id != username
    decreases |members|
  {
    var n := |members| - 1;
    if members[n].id != username {
      var init := members[..n];
      assert AllAddressed(init, username) by {
        forall k | 0 <= k < |init| && init[k].id == username ensures init[k].email.Some? {
          assert init[k] == members[k];
        }
      }
      LastEmailIsLast(init, username);
      var k :| 0 <= k < |init| && init[k].id == username && init[k].email == LastEmail(init, username)
               && forall j | k < j < |init| :: init[j].id != username;
      assert members[k] == init[k];
      assert forall j | k < j < |members| :: members[j].id != username by {
        forall j | k < j < |members| ensures members[j].id != username {
          if j < n { assert members[j] == init[j]; }
        }
      }
    }
  }

  /** A miss returns the address of the last member with that id, and stores it. */
  lemma MissTakesLastMember(table: map<string, string>, username: string, members: seq<Member>, e: string)
    requires username !in table && Lookup(table, username, Some(members)) == Some(e)
    ensures exists k | 0 <= k < |members| ::
              members[k] == Member(username, Some(e))
              && forall j | k < j < |members| :: members[j].id != username
    ensures Stored(table, username, Some(members)) == table[username := e]
  {
    LastEmailIsLast(members, username);
    var k :| 0 <= k < |members| && members[k].id == username && members[k].email == Some(e)
             && forall j | k < j < |members| :: members[j].id != username;
    assert members[k] == Member(username, Some(e));
  }

  /** A miss with no member of that id, or whose member has no address,
      returns nothing and stores nothing. */
  lemma MissWithoutAddress(table: map<string, string>, username: string, members: seq<Member>)
    requires username !in table
    requires (forall k | 0 <= k < |members| :: members[k].id != username) || !AllAddressed(members, username)
    ensures Lookup(table, username, Some(members)) == None
    ensures Stored(table, username, Some(members)) == table
  {
  }

  /** Entries for other users are never touched. */
  lemma OthersUnchanged(table: map<string, string>, username: string, roster: Option<seq<Member>>, other: string)
    requires other != username
    ensures other in Stored(table, username, roster) <==> other in table
    ensures other in table ==> Stored(table, username, roster)[other] == table[other]
  {
  }
}
