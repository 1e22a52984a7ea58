/**
 * The user entity and the queries the user repository answers from its
 * stored users: `findByEmail` and `existsByEmail`.
 */
module Usuarios {
  import opened Wrappers

  /** A user record: the id is absent until the repository has saved it. */
  datatype Usuario = Usuario(id: Option<nat>, nome: string, email: string, senha: string)

  /** No two stored users share an email. */
  ghost predicate EmailsUnique(store: seq<Usuario>)
  {
    forall i, j :: 0 <= i < j < |store| ==> store[i].email != store[j].email
  }

  /** `i` is the position of the first stored user whose email is `email`. */
  ghost predicate FirstWithEmail(store: seq<Usuario>, i: int, email: string)
  {
    && 0 <= i < |store|
    && store[i].email == email
    && forall j :: 0 <= j < i ==> store[j].email != email
  }

  /** The repository's lookup by email: the stored user with that email, if any. */
  function FindByEmail(store: seq<Usuario>, email: string): (r: Option<Usuario>)
    ensures r.None? <==> forall i :: 0 <= i < |store| ==> store[i].email != email
    ensures r.Some? ==> exists i :: FirstWithEmail(store, i, email) && store[i] == r.value
  {
    if |store| == 0 then None
    else if store[0].email == email then Some(store[0])
    else
      var r := FindByEmail(store[1..], email);
      assert forall i :: FirstWithEmail(store[1..], i, email) ==> FirstWithEmail(store, i + 1, email);
      r
  }

  /** The repository's existence check by email. */
  predicate ExistsByEmail(store: seq<Usuario>, email: string)
  {
    exists u :: u in store && u.email == email
  }

  /** `findByEmail` and `existsByEmail` agree: a user is found exactly when one exists. */
  lemma FindExistsConsistent(store: seq<Usuario>, email: string)
    ensures FindByEmail(store, email).Some? <==> ExistsByEmail(store, email)
  {
  }

  /** When emails are unique, the user found by email is the one stored user with it. */
  lemma FindByEmailUnique(store: seq<Usuario>, k: nat)
    requires EmailsUnique(store)
    requires k < |store|
    ensures FindByEmail(store, store[k].email) == Some(store[k])
  {
  }

  /** Appending a user whose email is new keeps emails unique. */
  lemma AppendKeepsEmailsUnique(store: seq<Usuario>, u: Usuario)
    requires EmailsUnique(store)
    requires !ExistsByEmail(store, u.email)
    ensures EmailsUnique(store + [u])
  {
  }
}
