/**
 * AuthService: the user table that loadUsers builds from users.csv
 * (user name -> password and role) and the credential lookup behind the
 * login endpoint.
 */
module Auth {
  import opened Options

  datatype Account = Account(password: string, role: string)

  /** verify: the user's role when the user is registered and the password
      matches, and null (None) otherwise. */
  function Verify(users: map<string, Account>, u: string, p: string): (role: Option<string>)
    ensures role.Some? <==> u in users && users[u].password == p
    ensures role.Some? ==> role.value == users[u].role
  {
    if u in users && users[u].password == p then Some(users[u].role) else None
  }

  /** A user can log in with one password only, and then always gets the
      same role. */
  lemma VerifyDeterminesPassword(users: map<string, Account>, u: string, p: string, p': string)
    requires Verify(users, u, p).Some? && Verify(users, u, p').Some?
    ensures p == p' && Verify(users, u, p) == Verify(users, u, p')
  {
  }

  /** How many rows loadUsers stores: those before the first one with fewer
      than three fields (a name, a password and a role), where p[1] or p[2] throws and the catch block ends
      the loading. */
  function LoadedRows(rows: seq<seq<string>>): (n: nat)
    ensures n <= |rows|
    ensures forall i :: 0 <= i < n ==> |rows[i]| >= 3
    ensures n < |rows| ==> |rows[n]| < 3
  {
    if rows == [] || |rows[0]| < 3 then 0
    else
      var n := 1 + LoadedRows(rows[1..]);
      assert forall i :: 1 <= i < n ==> rows[i] == rows[1..][i - 1];
      n
  }

  /** The user table after users.put(p[0], {p[1], p[2]}) for each row, in
      order. */
  function UsersFrom(rows: seq<seq<string>>): map<string, Account>
    requires forall i :: 0 <= i < |rows| ==> |rows[i]| >= 3
  {
    if rows == [] then map[]
    else
      var p := rows[|rows| - 1];
      UsersFrom(rows[..|rows| - 1])[p[0] := Account(p[1], p[2])]
  }

  /** Row i is the last of rows that names user u. */
  predicate IsLastRowFor(rows: seq<seq<string>>, u: string, i: int)
    requires forall j :: 0 <= j < |rows| ==> |rows[j]| >= 3
  {
    && 0 <= i < |rows| && rows[i][0] == u
    && forall j :: i < j < |rows| ==> rows[j][0] != u
  }

  /** HashMap.put keeps the last value: a user is in the table iff some row
      names them, and their account is the one on the last such row. */
  lemma {:induction false} UsersFromLastWins(rows: seq<seq<string>>, u: string)
    requires forall i :: 0 <= i < |rows| ==> |rows[i]| >= 3
    ensures u in UsersFrom(rows) <==> exists i :: IsLastRowFor(rows, u, i)
    ensures forall i :: IsLastRowFor(rows, u, i) ==> UsersFrom(rows)[u] == Account(rows[i][1], rows[i][2])
  {
    if rows != [] {
      var n := |rows| - 1;
      var front := rows[..n];
      UsersFromLastWins(front, u);
      if rows[n][0] == u {
        assert IsLastRowFor(rows, u, n);
      } else {
        forall i | IsLastRowFor(rows, u, i)
          ensures IsLastRowFor(front, u, i)
        {
        }
        if u in UsersFrom(front) {
          var i :| IsLastRowFor(front, u, i);
          assert IsLastRowFor(rows, u, i);
        }
      }
    }
  }

  /** loadUsers followed by verify: a login succeeds with role r iff the last
      stored row for the user carries password p and role r. */
  lemma LoginAfterLoad(rows: seq<seq<string>>, u: string, p: string, r: string)
    requires forall i :: 0 <= i < |rows| ==> |rows[i]| >= 3
    ensures Verify(UsersFrom(rows), u, p) == Some(r) <==>
              exists i :: IsLastRowFor(rows, u, i) && rows[i][1] == p && rows[i][2] == r
  {
    UsersFromLastWins(rows, u);
  }

  /** loadUsers: rows holds the fields of each line after the header, as
      line.split(",") gives them.  Every row's user is put into the table
      until the end of the file or the first row without three fields. */
  method LoadUsers(rows: seq<seq<string>>) returns (users: map<string, Account>)
    ensures users == UsersFrom(rows[..LoadedRows(rows)])
  {
    users := map[];
    var i := 0;
    while i < |rows| && |rows[i]| >= 3
      invariant 0 <= i <= LoadedRows(rows)
      invariant users == UsersFrom(rows[..i])
    {
      var p := rows[i];
      assert rows[..i + 1][..i] == rows[..i];
      users := users[p[0] := Account(p[1], p[2])];
      i := i + 1;
    }
  }
}
