/**
 * The user repository as an in-memory store: the stored users in insertion
 * order and the next id the store will hand out.
 */
module UsuarioRepositorio {
  import opened Wrappers
  import opened Usuarios

  class UsuarioRepository {
    var usuarios: seq<Usuario>
    var proximoId: nat

    /** Every stored user carries an id below `proximoId`, and no two share one. */
    ghost predicate Valid()
      reads this
    {
      && (forall i :: 0 <= i < |usuarios| ==> usuarios[i].id.Some? && usuarios[i].id.value < proximoId)
      && (forall i, j :: 0 <= i < j < |usuarios| ==> usuarios[i].id != usuarios[j].id)
    }

    /** An empty store whose first id is 1. */
    constructor ()
      ensures Valid()
      ensures usuarios == [] && proximoId == 1
    {
      usuarios := [];
      proximoId := 1;
    }

    /** Stores `usuario` under a new id and returns the stored record. */
    method Save(usuario: Usuario) returns (salvo: Usuario)
      requires Valid()
      modifies this
      ensures Valid()
      ensures salvo == usuario.(id := Some(old(proximoId)))
      ensures usuarios == old(usuarios) + [salvo]
      ensures proximoId == old(proximoId) + 1
    {
      salvo := usuario.(id := Some(proximoId));
      usuarios := usuarios + [salvo];
      proximoId := proximoId + 1;
    }
  }
}
