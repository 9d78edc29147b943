/**
 * Retrieval and update of user records. The target record of `Get` and
 * `Update` has already been resolved by route binding when these run.
 */
module UserController {
  import opened Wrappers
  import opened Users
  import opened Http
  import UserPolicy
  import Storage

  /** A record is shown to an admin or to its own owner; anyone else gets 401. */
  function Get(actor: User, target: User): (r: Response)
    ensures r.status == 200 <==> actor.role == AdminRole || actor.id == target.id
    ensures r.status == 200 ==> r.body == Record(target)
    ensures r.status != 200 ==> r == PermissionDenied
  {
    if UserPolicy.Can(actor, UserPolicy.View(target)) then Response(200, Record(target)) else PermissionDenied
  }

  /** The whole table, in id order, for an admin; 401 for anyone else. */
  function Index(users: Table, actor: User): (r: Response)
    ensures r.status == 200 <==> actor.role == AdminRole
    ensures r.status == 200 ==> r.body == Records(users)
    ensures r.status != 200 ==> r == PermissionDenied
  {
    if UserPolicy.Can(actor, UserPolicy.ViewAny) then Response(200, Records(users)) else PermissionDenied
  }

  /**
   * The fields of an update request that fail validation. Every field is
   * optional; a supplied email must be well-formed and not held by another
   * row (the target's own email is allowed); a supplied role must be
   * `user` or `admin`. The actor plays no part.
   */
  function UpdateErrors(users: Table, target: User, req: Input): (errs: set<Field>)
    ensures errs <= {EmailField, RoleField}
    ensures req.email.None? && req.role.None? ==> errs == {}
    ensures errs == {} <==>
      && (req.email.Some? ==> ValidEmail(req.email.value) && !EmailTaken(users, req.email.value, Some(target.id)))
      && (req.role.Some? ==> ParseRole(req.role.value).Some?)
    ensures req.email.Some? && !ValidEmail(req.email.value) ==> EmailField in errs
  {
    (if req.email.Some? && (!ValidEmail(req.email.value) || EmailTaken(users, req.email.value, Some(target.id)))
     then {EmailField} else {})
    + (if req.role.Some? && ParseRole(req.role.value).None? then {RoleField} else {})
  }

  /**
   * The payload that is applied: a non-admin's `role` is dropped without
   * error. A non-admin can only reach this on their own record, where the
   * target is not an admin either, so testing the actor's role agrees with
   * testing the target's role on every path a non-admin can take
   * (NarrowingAgreesWithTargetGuard).
   */
  function EffectivePayload(actor: User, req: Input): (r: Input)
    ensures r.(role := req.role) == req
    ensures actor.role == AdminRole ==> r == req
    ensures actor.role != AdminRole ==> r.role.None?
  {
    if actor.role == AdminRole then req else req.(role := None)
  }

  /**
   * The payload as the source builds it: the guard reads the target's role,
   * and unsetting a property of an array removes nothing, so the request
   * goes through whole whatever the guard says.
   */
  function PayloadAsWritten(target: User, req: Input): (r: Input)
    ensures r == req
  {
    if target.role != AdminRole then UnsetProperty(req) else req
  }

  /**
   * `unset($requestData->role)` where `$requestData` is the array that
   * `$request->all()` returns: property access on a non-object yields
   * nothing to unset, so the array comes back as it was.
   */
  function UnsetProperty(requestData: Input): Input {
    requestData
  }

  /** Mass assignment of a validated payload: supplied fields replace the stored ones. */
  function Patch(u: User, p: Input): (v: User)
    ensures v.id == u.id && v.apiKey == u.apiKey
    ensures p.name.None? ==> v.name == u.name
    ensures p.email.None? ==> v.email == u.email
    ensures p.password.None? ==> v.password == u.password
    ensures p.phone.None? ==> v.phone == u.phone
    ensures p.role.None? ==> v.role == u.role
  {
    User(
      u.id,
      if p.name.Some? then p.name.value else u.name,
      if p.email.Some? then p.email.value else u.email,
      if p.password.Some? then p.password.value else u.password,
      if p.phone.Some? then p.phone else u.phone,
      if p.role.Some? && ParseRole(p.role.value).Some? then ParseRole(p.role.value).value else u.role,
      u.apiKey)
  }

  /** An empty payload leaves the record as it was; a supplied field lands in the record. */
  lemma PatchAppliesSupplied(u: User, p: Input)
    ensures p == Input(None, None, None, None, None) ==> Patch(u, p) == u
    ensures p.name.Some? ==> Patch(u, p).name == p.name.value
    ensures p.email.Some? ==> Patch(u, p).email == p.email.value
    ensures p.password.Some? ==> Patch(u, p).password == p.password.value
    ensures p.phone.Some? ==> Patch(u, p).phone == p.phone
    ensures p.role.Some? && ParseRole(p.role.value).Some? ==> Patch(u, p).role == ParseRole(p.role.value).value
  {
  }

  /**
   * A non-admin's update never changes the role; an admin's valid role
   * change is applied, on any record including their own.
   */
  lemma RoleNarrowing(actor: User, target: User, req: Input)
    ensures actor.role != AdminRole ==> Patch(target, EffectivePayload(actor, req)).role == target.role
    ensures actor.role == AdminRole && req.role.Some? && ParseRole(req.role.value).Some? ==>
      Patch(target, EffectivePayload(actor, req)).role == ParseRole(req.role.value).value
    ensures EffectivePayload(actor, req).(role := req.role) == req
  {
  }

  /** As written, a regular user who sends `role=admin` for their own record becomes an admin. */
  lemma AsWrittenLetsUserPromoteSelf(users: Table, u: User, req: Input)
    requires u.role == UserRole && req.role == Some("admin") && req.email.None?
    ensures UserPolicy.Can(u, UserPolicy.Update(u)) && UpdateErrors(users, u, req) == {}
    ensures Patch(u, PayloadAsWritten(u, req)).role == AdminRole
    ensures Patch(u, EffectivePayload(u, req)).role == UserRole
  {
  }

  /** For a non-admin the actor-based guard and the source's target-based guard agree. */
  lemma NarrowingAgreesWithTargetGuard(users: Table, nextId: nat, actor: User, target: User)
    requires WellFormed(users, nextId) && actor in users && target in users
    requires UserPolicy.Can(actor, UserPolicy.Update(target)) && actor.role != AdminRole
    ensures target == actor && target.role != AdminRole
  {
    var i :| 0 <= i < |users| && users[i] == actor;
    var j :| 0 <= j < |users| && users[j] == target;
    IdDeterminesRow(users, nextId, i, j);
  }

  /** A record may keep its own email: only other rows' emails are taken. */
  lemma OwnEmailAllowed(users: Table, nextId: nat, target: User, req: Input)
    requires WellFormed(users, nextId) && target in users
    requires req.email == Some(target.email) && ValidEmail(target.email)
    ensures EmailField !in UpdateErrors(users, target, req)
  {
    var j :| 0 <= j < |users| && users[j] == target;
    forall k | 0 <= k < |users| && users[k].email == target.email
      ensures users[k].id == target.id
    {
      assert k == j;
    }
  }

  /** Another row's email, or a role outside `user`/`admin`, always fails validation. */
  lemma TakenEmailOrBadRoleRejected(users: Table, target: User, req: Input, k: nat)
    requires k < |users|
    ensures req.email == Some(users[k].email) && users[k].id != target.id ==> EmailField in UpdateErrors(users, target, req)
    ensures req.role.Some? && req.role.value != "user" && req.role.value != "admin" ==> RoleField in UpdateErrors(users, target, req)
  {
  }

  /** Rewriting one row with a payload that passed email validation keeps the table well-formed. */
  lemma UpdatePreservesWellFormed(users: Table, nextId: nat, i: nat, p: Input)
    requires WellFormed(users, nextId) && i < |users|
    requires p.email.Some? ==> !EmailTaken(users, p.email.value, Some(users[i].id))
    ensures WellFormed(users[i := Patch(users[i], p)], nextId)
  {
    var t := users[i := Patch(users[i], p)];
    forall j, k | 0 <= j < k < |t|
      ensures t[j].email != t[k].email
    {
      if (j == i || k == i) && p.email.Some? {
        var o := if j == i then k else j;
        assert users[o].id != users[i].id by {
          if o < i { assert users[o].id < users[i].id; } else { assert users[i].id < users[o].id; }
        }
        assert users[o].email != p.email.value;
      }
    }
  }

  /**
   * The update action: permission first, then validation, then the
   * narrowed payload is written to the target's row and only that row.
   */
  method Update(table: Storage.UserTable, actor: User, target: User, req: Input) returns (out: Outcome)
    requires table.Valid() && target in table.rows
    modifies table
    ensures table.Valid()
    ensures !UserPolicy.Can(actor, UserPolicy.Update(target)) ==> out == Returned(PermissionDenied) && unchanged(table)
    ensures UserPolicy.Can(actor, UserPolicy.Update(target)) && UpdateErrors(old(table.rows), target, req) != {} ==>
      out == Threw(Validation(UpdateErrors(old(table.rows), target, req))) && unchanged(table)
    ensures UserPolicy.Can(actor, UserPolicy.Update(target)) && UpdateErrors(old(table.rows), target, req) == {} ==>
      var v := Patch(target, EffectivePayload(actor, req));
      && out == Returned(Response(200, Updated("Successfully updated.", v)))
      && table.nextId == old(table.nextId)
      && |table.rows| == |old(table.rows)|
      && forall k :: 0 <= k < |table.rows| ==>
           table.rows[k] == if old(table.rows)[k].id == target.id then v else old(table.rows)[k]
  {
    if !UserPolicy.Can(actor, UserPolicy.Update(target)) {
      return Returned(PermissionDenied);
    }
    var errors := UpdateErrors(table.rows, target, req);
    if errors != {} {
      return Threw(Validation(errors));
    }
    var requestData := EffectivePayload(actor, req);
    var j :| 0 <= j < |table.rows| && table.rows[j] == target;
    FirstFindsRow(table.rows, table.nextId, j);
    var i := First(table.rows, IdIs(target.id)).value;
    var v := Patch(target, requestData);
    UpdatePreservesWellFormed(table.rows, table.nextId, i, requestData);
    ghost var before := table.rows;
    table.Save(i, v);
    forall k | 0 <= k < |table.rows|
      ensures table.rows[k] == if before[k].id == target.id then v else before[k]
    {
      if before[k].id == target.id {
        IdDeterminesRow(before, table.nextId, i, k);
      }
    }
    out := Returned(Response(200, Updated("Successfully updated.", v)));
  }
}
