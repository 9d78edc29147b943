/**
 * The persistence side of the model: the `users` table with its
 * auto-increment counter, and the model instance that a create fills
 * before it is inserted.
 */
module Storage {
  import opened Wrappers
  import opened Users

  /** A `User` instance that has been filled from a request but not yet inserted. */
  class UserModel {
    var name: string
    var email: string
    var password: string
    var phone: Option<string>
    var role: Role
    var apiKey: string

    constructor Fill(name: string, email: string, password: string, phone: Option<string>, role: Role)
      ensures this.name == name && this.email == email && this.password == password
      ensures this.phone == phone && this.role == role && this.apiKey == ""
    {
      this.name := name;
      this.email := email;
      this.password := password;
      this.phone := phone;
      this.role := role;
      this.apiKey := "";
    }

    /** The row this instance becomes once the table assigns it `id`. */
    function Row(id: nat): User
      reads this
    {
      User(id, name, email, password, phone, role, apiKey)
    }
  }

  /** The `users` table: its rows in id order and the next auto-increment id. */
  class UserTable {
    var rows: Table
    var nextId: nat

    ghost predicate Valid()
      reads this
    {
      WellFormed(rows, nextId)
    }

    constructor ()
      ensures Valid() && rows == [] && nextId == 1
    {
      rows := [];
      nextId := 1;
    }

    /** INSERT: the instance receives the next id and becomes the last row. */
    method Insert(m: UserModel) returns (u: User)
      requires Valid()
      requires |m.apiKey| == KeyLength && !KeyInUse(rows, m.apiKey)
      requires !EmailTaken(rows, m.email, None)
      modifies this
      ensures Valid()
      ensures u == m.Row(old(nextId))
      ensures rows == old(rows) + [u] && nextId == old(nextId) + 1
    {
      u := m.Row(nextId);
      InsertPreservesWellFormed(rows, nextId, u);
      rows := rows + [u];
      nextId := nextId + 1;
    }

    /** UPDATE ... WHERE id = u.id, for the row at position `i`. */
    method Save(i: nat, u: User)
      requires Valid() && i < |rows| && rows[i].id == u.id
      requires WellFormed(rows[i := u], nextId)
      modifies this
      ensures Valid()
      ensures rows == old(rows)[i := u] && nextId == old(nextId)
    {
      rows := rows[i := u];
    }
  }
}
