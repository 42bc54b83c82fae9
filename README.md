# Pomodoro API: a verified model of the pomodoro store and its lifecycle

The service stores three kinds of record: users (`Usuario`, with a unique nickname),
work sessions (`Sesion`, owned by a user, with a running total `total_minutos_acumulados`)
and pomodoros (`Pomodoro`, owned by a session). A pomodoro is started `en_progreso` and
ends exactly once, either `completado` or `cancelado`. Both endings credit the owning
session with whole elapsed minutes:

- completing caps the elapsed minutes at `duracion_actividad`, then raises them to at least 1;
- cancelling only raises them to at least 1.

A statistics read sums a user's session totals. It also counts the user's sessions and
their `completado` pomodoros. A separate allow-list validator checks free-text fields
against `^[\w\s\.\-\@]+$`.

Layout:

- `models.dfy` (module `Models`): the three records and their defaults. The `estado` CHECK
  constraint is the enumeration `Estado` plus its string encoding. The database is one
  value `Db`, and `Valid` is its integrity predicate: identifier ranges, unique nicknames,
  both foreign keys, record lifecycle, and **conservation**. Conservation means each
  session total equals the sum of `minutos_completados` over its completed and cancelled
  pomodoros. The cascading deletes are here too.
- `timing.dfy` (module `Timing`): elapsed minutes (truncated toward zero) and the two
  credit rules.
- `endpoints.dfy` (module `Endpoints`): every route as a function from the database
  before the request to the response and the database after it.
- `invariants.dfy` (module `Invariants`): every route preserves `Valid`. A pomodoro is
  credited at most once. The statistics equal the credited minutes of the user's
  pomodoros. It also proves how each route changes the statistics.
- `store.dfy` (module `Routers`): class `Store`. Its tables are map fields that the write
  routes update in place, step by step as the routes do. Each method is proved to match
  its `Endpoints` function and to keep `Valid`.
- `validate.dfy` (module `Validate`): `validar_string`.
- `sums.dfy`, `tables.dfy`, `outcomes.dfy`: sums over identifier ranges, filtered
  selections and counts, and the `Option`/`Result`/HTTP-error types.

Time is integer seconds (UTC). The clock reading is the parameter `ahora`, and
`fecha_creacion`, `inicio` and `fin` take it. Identifiers are auto-increment counters
starting at 1.

Behaviours of routers/routers.py worth knowing:

- Completion applies the cap before the floor (routers/routers.py:174-179). So a
  pomodoro with `duracion_actividad` below 1 is credited 1, more than its planned length.
  The credit is at most `duracion_actividad` only when that is at least 1.
- Cancelling has no upper cap (routers/routers.py:231-232).
- The statistics route does not check that the user exists. An unknown user gets zeros
  (`Invariants.EstadisticasSinSesiones`).
- Only `completado` pomodoros are counted (routers/routers.py:298-301).

## Model

| member | source | states |
|---|---|---|
| `Models.EstadoDesdeTexto` | models/models.py:44-49 | a stored `estado` string is accepted exactly when it is one of `en_progreso`, `completado`, `cancelado`, and then it encodes back to the same string |
| `Models.EstadoRoundTrip` | models/models.py:40-49 | storing any state and reading it back gives that state |
| `Models.NuevaSesion` | models/models.py:20-25 | a new session has the given owner, name and description, the server's creation time, and total 0 |
| `Models.NuevoPomodoro` | models/models.py:34-41 | a new pomodoro is `en_progreso` with no `fin`, `minutos_completados` 0, and the given session, durations and `inicio` |
| `Models.EmptyValid` | models/models.py:7-49 | the empty database satisfies every constraint, including conservation |
| `Models.EliminarSesion` | models/models.py:29-35 | deleting a session removes it and every pomodoro it owns; every other session and pomodoro is kept as it was, and users are untouched; nothing is added and the identifier counters stay where they were |
| `Models.EliminarUsuario` | models/models.py:15-21 | deleting a user removes it, its sessions and their pomodoros; every other user, session and pomodoro is kept as it was; nothing is added and the identifier counters stay where they were |
| `Timing.MinutosTranscurridos` | routers/routers.py:169-171 | the result is the elapsed seconds divided by 60, truncated toward zero: between `60*m` and `60*m+60` for non-negative time, mirrored for negative time |
| `Timing.CreditoCompletar` | routers/routers.py:173-179 | the completion credit is always at least 1 and at most `duracion_actividad` when that is at least 1; it is the elapsed minutes when they lie in `[1, duracion_actividad]`, `duracion_actividad` when they exceed it, and 1 otherwise |
| `Timing.CreditoCancelar` | routers/routers.py:230-232 | the cancellation credit is at least 1 and at least the elapsed minutes, equal to them when they are at least 1, with no upper bound |
| `Timing.CompletarFrenteACancelar` | routers/routers.py:171-179 | for the same elapsed minutes, completing never credits more than cancelling; the two agree exactly when the elapsed minutes are at most the planned length or at most 1 |
| `Timing.EjemplosCompletar` | routers/routers.py:169-179 | a 25-minute pomodoro completed after 0 s or 59 s is credited 1, after 10 min (or 10 min 59 s) 10, after 40 min 25 |
| `Timing.CancelarSinTope` | routers/routers.py:226-232 | a 25-minute pomodoro cancelled after an hour is credited 60, while completing it would credit 25 |
| `Timing.RelojAtrasado` | routers/routers.py:170-179 | if the clock reads earlier than `inicio`, both completing and cancelling credit exactly 1 |
| `Endpoints.CrearUsuario` | routers/routers.py:17-27 | it fails with 400 exactly when the nickname is already registered, and then nothing changes; otherwise it adds one user with that nickname under the next identifier and changes nothing else |
| `Endpoints.ListarUsuarios` | routers/routers.py:44-51 | it returns only stored users, each with its identifier; identifiers are strictly increasing; when identifiers stay below the counter (part of `Valid`), every user appears |
| `Endpoints.CrearSesion` | routers/routers.py:60-74 | it fails with 404 exactly when the user does not exist, and then nothing changes; otherwise it adds one session with total 0 and changes nothing else |
| `Endpoints.ListarSesionesUsuario` | routers/routers.py:93-102 | it returns only sessions owned by the user, each with its identifier, in strictly increasing order; when identifiers stay below the counter, every such session appears |
| `Endpoints.IniciarPomodoro` | routers/routers.py:111-132 | it fails with 404 exactly when the session does not exist, and then nothing changes; otherwise it adds one pomodoro with `estado = en_progreso`, `inicio = ahora` and the given durations (default 25 and 5); no session, and so no session total, changes |
| `Endpoints.Cerrar` | routers/routers.py:181-188 | closing sets `estado`, `minutos_completados` and `fin` of the one pomodoro together, adds exactly the credit to its session's total, and leaves every other record and every counter unchanged |
| `Endpoints.CompletarPomodoro` | routers/routers.py:152-190 | 404 for an unknown id and 400 for any state but `en_progreso`, both with nothing changed; success happens exactly for an `en_progreso` pomodoro, which becomes `completado` and credits its session with `CreditoCompletar` of the elapsed minutes, nothing else changing |
| `Endpoints.CancelarPomodoro` | routers/routers.py:209-243 | the same errors as completing; on success the pomodoro becomes `cancelado` and its session is still credited, with `CreditoCancelar` of the elapsed minutes |
| `Endpoints.ListarPomodorosSesion` | routers/routers.py:261-272 | it returns only pomodoros of the session, each with its identifier, in strictly increasing order; when identifiers stay below the counter, every such pomodoro appears |
| `Endpoints.ObtenerEstadisticasUsuario` | routers/routers.py:281-308 | the session count equals the number of sessions the session listing returns for the user, and the completed count is non-negative; as a function it changes nothing |
| `Invariants.CrearUsuarioValid` | routers/routers.py:19-27 | creating a user keeps every constraint, in particular nickname uniqueness |
| `Invariants.CrearSesionValid` | routers/routers.py:63-74 | creating a session keeps every constraint; the new session's total 0 equals the credit of its (no) pomodoros |
| `Invariants.IniciarPomodoroValid` | routers/routers.py:119-132 | starting a pomodoro keeps every constraint, conservation included |
| `Invariants.CerrarValid` | routers/routers.py:181-188 | closing an open pomodoro with a credit of at least 1 keeps every constraint, conservation included |
| `Invariants.CompletarValid` | routers/routers.py:152-190 | completing, successful or not, keeps every constraint |
| `Invariants.CancelarValid` | routers/routers.py:209-243 | cancelling, successful or not, keeps every constraint |
| `Invariants.EliminarSesionValid` | models/models.py:29-35 | the session cascade keeps every constraint |
| `Invariants.EliminarUsuarioValid` | models/models.py:15-21 | the user cascade keeps every constraint |
| `Invariants.CompletarUnaVez` | routers/routers.py:154-159 | after a successful completion, completing or cancelling the same pomodoro again fails with 400 and changes nothing, so it is credited once |
| `Invariants.CancelarUnaVez` | routers/routers.py:211-216 | after a successful cancellation, completing or cancelling it again fails with 400 and changes nothing |
| `Invariants.CompletadosDeUsuario` | routers/routers.py:298-301 | a user's reported completed count equals the number of pomodoros in state completado that belong to the user's sessions |
| `Invariants.MinutosDeUsuario` | routers/routers.py:286-290 | a user's reported total minutes equal the sum of the credited minutes of every completed or cancelled pomodoro in the user's sessions, and are never negative |
| `Invariants.EstadisticasSinSesiones` | routers/routers.py:286-301 | a user with no sessions, an unknown user included, gets 0 minutes, 0 sessions and 0 completed pomodoros |
| `Invariants.IniciarPomodoroEstadisticas` | routers/routers.py:123-131 | starting a pomodoro leaves every user's statistics unchanged |
| `Invariants.CompletarEstadisticas` | routers/routers.py:182-188 | completing adds the credit to the owner's total minutes and one to the owner's completed count, keeps the session count, and changes no other user's statistics |
| `Invariants.CancelarEstadisticas` | routers/routers.py:235-241 | cancelling adds the credit to the owner's total minutes but leaves every completed count and session count unchanged |
| `Routers.Store.CrearUsuario` | routers/routers.py:17-27 | the in-place insertion gives exactly the response and tables of `Endpoints.CrearUsuario` and keeps `Valid` |
| `Routers.Store.CrearSesion` | routers/routers.py:60-74 | the in-place insertion gives exactly the response and tables of `Endpoints.CrearSesion` and keeps `Valid` |
| `Routers.Store.IniciarPomodoro` | routers/routers.py:111-132 | the in-place insertion gives exactly the response and tables of `Endpoints.IniciarPomodoro` and keeps `Valid` |
| `Routers.Store.CompletarPomodoro` | routers/routers.py:152-190 | the step-by-step cap-then-floor of `minutos_completados` and the in-place updates give exactly `Endpoints.CompletarPomodoro` and keep `Valid` |
| `Routers.Store.CancelarPomodoro` | routers/routers.py:209-243 | the step-by-step floor and the in-place updates give exactly `Endpoints.CancelarPomodoro` and keep `Valid` |
| `Validate.CoincidePatronSiTodosPermitidos` | utils/validate.py:4 | the pattern matches a string exactly when it is non-empty and every character is in `[\w\s\.\-\@]` |
| `Validate.ValidarString` | utils/validate.py:6-16 | `None` is accepted, a non-string is refused with 400, and a string is accepted exactly when it is non-empty and made only of allowed characters, otherwise refused with 400; acceptance has no effect |
| `Validate.RechazaAsciiNoPermitido` | utils/validate.py:11-16 | when `\w` means letters, digits and `_` on ASCII, any other ASCII character that is not whitespace, `.`, `-` or `@` (such as `<`, `!`, `/`) anywhere in the string gets it refused with 400 |
| `Validate.EjemplosRechazados` | utils/validate.py:7-16 | `None` passes; a non-string, the empty string, `<b>`, `hola!` and `a/b` are refused with 400 |
| `Validate.EjemploAceptado` | utils/validate.py:4-11 | a string of letters, digits, `.`, `-`, `@`, a space and `_` is accepted |

## Left out

- HTTP and JSON shaping of the responses, the exact error messages, and the 500 responses
  that follow any other exception (with rollback). Success results carry only the new
  identifier or the credited minutes.
- The column length limits (`nickname` 50, `nombre_sesion` 100, `estado` 20). Breaking
  them only leads to a database error and a 500.
- The 32-bit width of the integer columns (`duracion_actividad`, `duracion_descanso`,
  `minutos_completados`, `total_minutos_acumulados`, models/models.py:25,36-37,41). A
  duration above 2^31-1, or a session total that would overflow, is a database error and
  a 500 there, while the model accepts any integer.
- Floating-point and timezone arithmetic. Instants are whole seconds in UTC, so the
  normalisation of naive `inicio` values (routers/routers.py:165-167) and sub-second
  precision are not modelled.
- The clock is not modelled. It is the parameter `ahora` of every route that reads it,
  and of the creation timestamps that the server fills in.
- Concurrency and transactions. Each route is one atomic step, so lost updates on a
  session total are not modelled.
- The database's collation. Nicknames are compared by exact string equality.
- Row order of the listings. The queries have no ORDER BY; the model returns rows in
  identifier order.
- Identifiers are modelled as consecutive. SQL Server IDENTITY can skip values after a
  failed insert or a restart; no invariant of the model depends on the values being
  consecutive.
- `ON UPDATE CASCADE`. Identifiers never change in the model.
- The read routes are functions of the database value (`Store.Model()`), not methods of
  `Store`.
- No route deletes anything, so the cascades are functions on `Db`, not methods of `Store`.
- `Validate.ValidarString`: Python's `\w` (Unicode letters, digits and `_`) is the
  parameter `esPalabra`. Only its ASCII part is pinned down, by `PalabraAscii`. The
  field name `campo` appears only in the error message.
- Pauses, duration rules, pomodoro types, event kinds and separate focus, break and
  pause totals. routers/routers.py does not implement them.
- utils/auth_utils.py (email, tokens, hashing, verification codes), utils/database.py,
  main.py and schemas/shemas.py are not part of this model.
