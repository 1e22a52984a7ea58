/**
 * The user account service: authentication by email and password, and
 * registration guarded by email uniqueness.
 */
module UsuarioServico {
  import opened Wrappers
  import opened Usuarios
  import opened UsuarioRepositorio

  const UsuarioNaoLocalizado := "Usuário não localizado para o email informado!"
  const SenhaInvalida := "Senha inválida!"
  const EmailJaCadastrado := "Já existe um usuário cadastrado com este email!"

  /** The two exception classes the service throws, each with its message. */
  datatype Erro = ErroAutenticacao(mensagem: string) | RegraNegocioException(mensagem: string)

  /**
   * `autenticar` over the repository's stored users: an unknown email fails
   * first, then a stored password not exactly equal to `senha`; otherwise the
   * stored user is returned. Being a function, it leaves the store unchanged.
   */
  function Autenticar(store: seq<Usuario>, email: string, senha: string): (r: Result<Usuario, Erro>)
    ensures r == Failure(ErroAutenticacao(UsuarioNaoLocalizado))
            <==> forall i :: 0 <= i < |store| ==> store[i].email != email
    ensures r == Failure(ErroAutenticacao(SenhaInvalida))
            <==> exists i :: FirstWithEmail(store, i, email) && store[i].senha != senha
    ensures r.Success? <==> exists i :: FirstWithEmail(store, i, email) && store[i].senha == senha
    ensures r.Success? ==> exists i :: FirstWithEmail(store, i, email) && r.value == store[i]
    ensures r.Success? ==> r.value in store && r.value.email == email && r.value.senha == senha
    ensures r.Failure? ==> r.error.ErroAutenticacao?
  {
    match FindByEmail(store, email)
    case None => Failure(ErroAutenticacao(UsuarioNaoLocalizado))
    case Some(u) =>
      if u.senha != senha then Failure(ErroAutenticacao(SenhaInvalida))
      else Success(u)
  }

  /** `validarEmail`: fails with a business-rule error exactly when the email is already stored. */
  function ValidarEmail(store: seq<Usuario>, email: string): (r: Outcome<Erro>)
    ensures r == Fail(RegraNegocioException(EmailJaCadastrado))
            <==> exists i :: 0 <= i < |store| && store[i].email == email
    ensures r == Pass <==> forall i :: 0 <= i < |store| ==> store[i].email != email
  {
    if ExistsByEmail(store, email) then Fail(RegraNegocioException(EmailJaCadastrado)) else Pass
  }

  /** With unique emails, authenticating as a stored user depends only on that user's password. */
  lemma AutenticarUnico(store: seq<Usuario>, k: nat, senha: string)
    requires EmailsUnique(store)
    requires k < |store|
    ensures Autenticar(store, store[k].email, senha)
            == if store[k].senha == senha then Success(store[k])
               else Failure(ErroAutenticacao(SenhaInvalida))
  {
  }

  /** A user registered under a new email can then authenticate with its own password. */
  lemma AutenticarAposCadastro(store: seq<Usuario>, usuario: Usuario, id: nat)
    requires !ExistsByEmail(store, usuario.email)
    ensures Autenticar(store + [usuario.(id := Some(id))], usuario.email, usuario.senha)
            == Success(usuario.(id := Some(id)))
  {
    var s := store + [usuario.(id := Some(id))];
    forall j | 0 <= j < |store| ensures s[j].email != usuario.email {
      assert store[j] in store;
    }
    assert FirstWithEmail(s, |store|, usuario.email);
  }

  /** Once a user is stored, validating the same email again fails. */
  lemma ValidarEmailAposCadastro(store: seq<Usuario>, usuario: Usuario, email: string)
    requires usuario.email == email
    ensures ValidarEmail(store + [usuario], email) == Fail(RegraNegocioException(EmailJaCadastrado))
  {
  }

  class UsuarioServiceImpl {
    const repository: UsuarioRepository

    constructor (repository: UsuarioRepository)
      ensures this.repository == repository
    {
      this.repository := repository;
    }

    /**
     * `salvarUsuario`: validates the email first, and only when it is new
     * saves the user, returning the record the repository stored.
     */
    method SalvarUsuario(usuario: Usuario) returns (r: Result<Usuario, Erro>)
      requires repository.Valid()
      modifies repository
      ensures repository.Valid()
      ensures ExistsByEmail(old(repository.usuarios), usuario.email) ==>
                && r == Failure(RegraNegocioException(EmailJaCadastrado))
                && repository.usuarios == old(repository.usuarios)
                && repository.proximoId == old(repository.proximoId)
      ensures !ExistsByEmail(old(repository.usuarios), usuario.email) ==>
                && r == Success(usuario.(id := Some(old(repository.proximoId))))
                && repository.usuarios == old(repository.usuarios) + [r.value]
                && repository.proximoId == old(repository.proximoId) + 1
      ensures EmailsUnique(old(repository.usuarios)) ==> EmailsUnique(repository.usuarios)
      ensures r.Success? ==> ExistsByEmail(repository.usuarios, usuario.email)
    {
      match ValidarEmail(repository.usuarios, usuario.email)
      case Fail(e) =>
        r := Failure(e);
      case Pass =>
        ghost var antes := repository.usuarios;
        var salvo := repository.Save(usuario);
        if EmailsUnique(antes) {
          AppendKeepsEmailsUnique(antes, salvo);
        }
        r := Success(salvo);
    }
  }

  /**
   * A registration and login sequence as a caller sees it through the contracts:
   * a repeated registration is refused, the stored user logs in with its own
   * password, and a wrong password or an unknown email is rejected.
   */
  method CadastroEAutenticacao()
    returns (repetido: Result<Usuario, Erro>, login: Result<Usuario, Erro>,
             senhaErrada: Result<Usuario, Erro>, emailDesconhecido: Result<Usuario, Erro>)
    ensures repetido == Failure(RegraNegocioException(EmailJaCadastrado))
    ensures login == Success(Usuario(Some(1), "usuario", "usuario@email.com", "senha"))
    ensures senhaErrada == Failure(ErroAutenticacao(SenhaInvalida))
    ensures emailDesconhecido == Failure(ErroAutenticacao(UsuarioNaoLocalizado))
  {
    var repository := new UsuarioRepository();
    var service := new UsuarioServiceImpl(repository);
    var usuario := Usuario(None, "usuario", "usuario@email.com", "senha");
    var salvo := service.SalvarUsuario(usuario);
    repetido := service.SalvarUsuario(usuario);
    login := Autenticar(repository.usuarios, "usuario@email.com", "senha");
    senhaErrada := Autenticar(repository.usuarios, "usuario@email.com", "outraSenha");
    emailDesconhecido := Autenticar(repository.usuarios, "outro@email.com", "senha");
  }
}
