# User accounts of minhas-financas, modelled in Dafny

This project models the user account service of the minhas-financas personal
finance API, `UsuarioServiceImpl`. The service authenticates a user by email and
password and registers new users, and it refuses an email that is already
registered. It works over a user repository. Here that repository is an
in-memory store: a sequence of users, kept in insertion order, plus the next id it
will hand out.

- `wrappers.dfy`: `Option`, `Result` and `Outcome`. The service's thrown
  exceptions are modelled as `Failure`/`Fail` values.
- `usuarios.dfy` (module `Usuarios`): the `Usuario` record (optional id, name,
  email, password). It also holds the repository's queries `FindByEmail` and
  `ExistsByEmail` as functions of the stored users, the email-uniqueness
  predicate, and the lemmas that relate these.
- `usuario_repository.dfy` (module `UsuarioRepositorio`): class
  `UsuarioRepository`, whose `Save` appends a user under a new id.
- `usuario_service.dfy` (module `UsuarioServico`): `Autenticar` and
  `ValidarEmail`. They are read-only, so they are functions of the stored users,
  and so they cannot change the store. The module also holds class
  `UsuarioServiceImpl`, whose `SalvarUsuario` method validates the email and then
  saves. Last comes a client method, `CadastroEAutenticacao`. It shows what a
  caller can conclude from the contracts alone: a registration, a repeated
  registration that fails, and the three outcomes of logging in.

The check order of `autenticar` comes from the first two `ensures` of `Autenticar`.
The "not found" failure happens exactly when no stored user has the email. The
"invalid password" failure needs a stored user with that email. So an unknown email
can never give "Senha inválida!".

## Model

| member | source | states |
|---|---|---|
| `Usuarios.FindByEmail` | src/test/java/com/bmsantana/minhasfinancas/model/repository/UsuarioRepositoryTest.java:86-112 | The lookup finds nothing exactly when no stored user has the email. Otherwise it returns the first stored user with that email. |
| `Usuarios.FindExistsConsistent` | src/test/java/com/bmsantana/minhasfinancas/model/repository/UsuarioRepositoryTest.java:39-112 | `findByEmail` finds a user exactly when `existsByEmail` answers true for the same store and email. `existsByEmail` is true exactly when some stored user has the email. |
| `Usuarios.FindByEmailUnique` | src/main/java/com/bmsantana/minhasfinancas/service/impl/UsuarioServiceImpl.java:22 | When no two stored users share an email, looking up any stored user's email returns that very user. |
| `Usuarios.AppendKeepsEmailsUnique` | src/main/java/com/bmsantana/minhasfinancas/service/impl/UsuarioServiceImpl.java:35-46 | Storing a user whose email is not yet stored keeps all stored emails distinct. |
| `UsuarioServico.Autenticar` | src/main/java/com/bmsantana/minhasfinancas/service/impl/UsuarioServiceImpl.java:21-32 | It fails with an authentication error "Usuário não localizado para o email informado!" exactly when no stored user has the email. It fails with "Senha inválida!" exactly when the user found has a different password. It succeeds exactly when the user found has an equal password, and then it returns that user found, the first stored user with the email, which carries the given email and password. Every failure is an authentication error. |
| `UsuarioServico.ValidarEmail` | src/main/java/com/bmsantana/minhasfinancas/service/impl/UsuarioServiceImpl.java:41-47 | It fails with a business-rule error "Já existe um usuário cadastrado com este email!" exactly when some stored user has that email. Otherwise it passes. |
| `UsuarioServico.AutenticarUnico` | src/main/java/com/bmsantana/minhasfinancas/service/impl/UsuarioServiceImpl.java:22-31 | When emails are unique, authenticating with a stored user's email returns that user if the passwords are equal, and "Senha inválida!" otherwise. |
| `UsuarioServico.AutenticarAposCadastro` | src/main/java/com/bmsantana/minhasfinancas/service/impl/UsuarioServiceImpl.java:21-38 | After a user with a new email is stored under an id, authenticating with its email and password returns exactly that stored record. |
| `UsuarioServico.ValidarEmailAposCadastro` | src/test/java/com/bmsantana/minhasfinancas/model/repository/UsuarioRepositoryTest.java:39-53 | Once a user with an email is stored, validating that email fails with the business-rule error, so a second registration is refused. |
| `UsuarioServico.UsuarioServiceImpl.SalvarUsuario` | src/main/java/com/bmsantana/minhasfinancas/service/impl/UsuarioServiceImpl.java:35-38 | If the email is already stored, it fails with the business-rule error and the store (users and next id) is unchanged. Otherwise it returns the user with the next id assigned and its name, email and password kept, and it appends exactly that record. It preserves email uniqueness and the repository's id invariant. After a success, the email exists in the store. |
| `UsuarioServico.CadastroEAutenticacao` | src/test/java/com/bmsantana/minhasfinancas/service/UsuarioServiceTest.java:32-144 | Starting from an empty repository, it registers a user and then registers the same user again, which is refused with the business-rule error. It then logs in with the right password and gets back the stored record with id 1. A wrong password fails with "Senha inválida!", and an unknown email fails with "Usuário não localizado para o email informado!". |
| `UsuarioServico.UsuarioServiceImpl.constructor` | src/main/java/com/bmsantana/minhasfinancas/service/impl/UsuarioServiceImpl.java:15-18 | The service works over the repository it is given. |
| `UsuarioRepositorio.UsuarioRepository.Save` | src/test/java/com/bmsantana/minhasfinancas/model/repository/UsuarioRepositoryTest.java:71-83 | The saved record is the given user carrying the next id. It is appended to the store, the next id advances, and stored ids stay present and distinct. |
| `UsuarioRepositorio.UsuarioRepository.constructor` | src/test/java/com/bmsantana/minhasfinancas/model/repository/UsuarioRepositoryTest.java:56-68 | A new repository holds no users, so no email exists in it. |

## Left out

- `UsuarioRepositorio.UsuarioRepository.Save`: it always stores a new record under a new id. The Java declarations of the `Usuario` entity and the `UsuarioRepository` interface are not modelled directly. Their fields and their save and query behaviour are taken from `UsuarioServiceImpl` and its tests. A JPA save of an entity that already carries an id (a merge) is not modelled. A Spring Data save of a new entity also sets the id on the very object passed in and returns that object. Here `Save` returns a new record value and leaves the argument as it was, so the caller's `usuario` in `salvarUsuario` is not updated in place. The only caller, the registration endpoint, uses just the returned value.
- `Usuarios.FindByEmail`: with duplicate emails it returns the first stored match. A real Spring Data derived query would throw instead. Under the uniqueness invariant that `SalvarUsuario` keeps, only one user can match. So `UsuarioServico.Autenticar` on a store with a duplicated email answers from the first match. There the source's `autenticar` would propagate the repository's non-unique-result exception instead of an `ErroAutenticacao`. The model's promise that every failure is an authentication error does not hold for the source in that case.
- Java `null`: the email and password are non-null strings. A null password given to `autenticar` would compare unequal, but that case is not modelled.
- Ids are unbounded naturals. Java `Long` overflow is not modelled.
- Password hashing: the source compares plaintext with `equals`, and the model uses exact string equality.
- The HTTP controllers (`UsuarioResource`, `LancamentoResource`) are not part of this model. They map DTOs and map exceptions to HTTP status codes.
- Financial entries (`LancamentoServiceImpl`, `Lancamento`, `LancamentoRepository`) are a separate service and are out of scope.
- Concurrency: two registrations racing on one email are not modelled. Each operation runs to completion alone.
