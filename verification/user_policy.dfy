/**
 * The access rules the controllers consult through `can(...)`. The policy
 * class itself is not part of this model; the rules below are the ones the
 * controllers' comments and the feature tests state.
 */
module UserPolicy {
  import opened Users

  datatype Action = ViewAny | Create | View(target: User) | Update(target: User)

  /** Admins may do everything; anyone else may only view or update their own record. */
  predicate Can(actor: User, action: Action)
    ensures actor.role == AdminRole ==> Can(actor, action)
    ensures Can(actor, action) && actor.role != AdminRole ==>
      (action.View? || action.Update?) && action.target.id == actor.id
  {
    match action
    case ViewAny => actor.role == AdminRole
    case Create => actor.role == AdminRole
    case View(target) => actor.role == AdminRole || actor.id == target.id
    case Update(target) => actor.role == AdminRole || actor.id == target.id
  }

  /** Whatever a non-admin may do, the same account with the admin role may do too. */
  lemma AdminDominates(actor: User, action: Action)
    ensures Can(actor.(role := UserRole), action) ==> Can(actor.(role := AdminRole), action)
    ensures Can(actor.(role := AdminRole), action)
  {
  }

  /** A non-admin is allowed exactly on their own record, and never to list or create. */
  lemma NonAdminOnlySelf(actor: User, action: Action)
    requires actor.role == UserRole
    ensures Can(actor, action) <==> (action.View? || action.Update?) && action.target.id == actor.id
  {
  }
}
