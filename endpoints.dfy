/** Every route of the service as a function from the database before the
    request to its response and the database after it. Each request is one
    atomic step; the clock reading is the parameter ahora. */
module Endpoints {
  import opened Outcomes
  import opened Tables
  import opened Sums
  import opened Models
  import opened Timing

  // ---------------------------------------------------------------- usuarios

  predicate NicknameTomado(usuarios: map<int, Usuario>, nickname: string)
  {
    exists k | k in usuarios :: usuarios[k].nickname == nickname
  }

  /** POST /usuarios/ : 400 when the nickname is registered, otherwise one new
      user under the next identifier and nothing else changes. */
  function CrearUsuario(db: Db, nickname: string, ahora: int): (out: (Result<int>, Db))
    ensures out.0.Err? <==> exists k :: k in db.usuarios && db.usuarios[k].nickname == nickname
    ensures out.0.Err? ==> out.0.error == BadRequest && out.1 == db
    ensures out.0.Ok? ==>
      var id := out.0.value;
      && id == db.nextUsuario && out.1.nextUsuario == id + 1
      && out.1.usuarios.Keys == db.usuarios.Keys + {id}
      && out.1.usuarios[id] == Usuario(nickname, ahora)
      && (forall k :: k in db.usuarios && k != id ==> out.1.usuarios[k] == db.usuarios[k])
      && out.1.sesiones == db.sesiones && out.1.pomodoros == db.pomodoros
      && out.1.nextSesion == db.nextSesion && out.1.nextPomodoro == db.nextPomodoro
  {
    if NicknameTomado(db.usuarios, nickname) then (Err(BadRequest), db)
    else
      var id := db.nextUsuario;
      (Ok(id), db.(usuarios := db.usuarios[id := Usuario(nickname, ahora)], nextUsuario := id + 1))
  }

  /** GET /usuarios/ : every user, in identifier order. */
  function ListarUsuarios(db: Db): (r: seq<(int, Usuario)>)
    ensures forall j :: 0 <= j < |r| ==> r[j].0 in db.usuarios && db.usuarios[r[j].0] == r[j].1
    ensures IdsBelow(db.usuarios, db.nextUsuario) ==>
      forall k :: k in db.usuarios ==> (k, db.usuarios[k]) in r
    ensures forall i, j :: 0 <= i < j < |r| ==> r[i].0 < r[j].0
  {
    Rows(db.usuarios, (u: Usuario) => true, db.nextUsuario)
  }

  // ---------------------------------------------------------------- sesiones

  /** POST /sesiones/ : 404 when the user does not exist, otherwise one new
      session with total 0 and nothing else changes. */
  function CrearSesion(db: Db, idUsuario: int, nombreSesion: string, descripcion: Option<string>, ahora: int)
    : (out: (Result<int>, Db))
    ensures out.0.Err? <==> idUsuario !in db.usuarios
    ensures out.0.Err? ==> out.0.error == NotFound && out.1 == db
    ensures out.0.Ok? ==>
      var id := out.0.value;
      && id == db.nextSesion && out.1.nextSesion == id + 1
      && out.1.sesiones.Keys == db.sesiones.Keys + {id}
      && out.1.sesiones[id] == NuevaSesion(idUsuario, nombreSesion, descripcion, ahora)
      && out.1.sesiones[id].totalMinutosAcumulados == 0
      && (forall k :: k in db.sesiones && k != id ==> out.1.sesiones[k] == db.sesiones[k])
      && out.1.usuarios == db.usuarios && out.1.pomodoros == db.pomodoros
      && out.1.nextUsuario == db.nextUsuario && out.1.nextPomodoro == db.nextPomodoro
  {
    if idUsuario !in db.usuarios then (Err(NotFound), db)
    else
      var id := db.nextSesion;
      (Ok(id), db.(sesiones := db.sesiones[id := NuevaSesion(idUsuario, nombreSesion, descripcion, ahora)],
                   nextSesion := id + 1))
  }

  function DeUsuario(idUsuario: int): Sesion -> bool
  {
    (s: Sesion) => s.idUsuario == idUsuario
  }

  /** GET /sesiones/usuario/{id_usuario} : the user's sessions, in identifier
      order (empty for an unknown user). */
  function ListarSesionesUsuario(db: Db, idUsuario: int): (r: seq<(int, Sesion)>)
    ensures forall j :: 0 <= j < |r| ==>
      r[j].0 in db.sesiones && db.sesiones[r[j].0] == r[j].1 && r[j].1.idUsuario == idUsuario
    ensures IdsBelow(db.sesiones, db.nextSesion) ==>
      forall k :: k in db.sesiones && db.sesiones[k].idUsuario == idUsuario ==> (k, db.sesiones[k]) in r
    ensures forall i, j :: 0 <= i < j < |r| ==> r[i].0 < r[j].0
  {
    Rows(db.sesiones, DeUsuario(idUsuario), db.nextSesion)
  }

  // --------------------------------------------------------------- pomodoros

  /** POST /pomodoros/ : 404 when the session does not exist, otherwise one new
      open pomodoro started now; no session total changes. */
  function IniciarPomodoro(db: Db, idSesion: int, ahora: int, duracionActividad: int := 25, duracionDescanso: int := 5)
    : (out: (Result<int>, Db))
    ensures out.0.Err? <==> idSesion !in db.sesiones
    ensures out.0.Err? ==> out.0.error == NotFound && out.1 == db
    ensures out.0.Ok? ==>
      var id := out.0.value;
      && id == db.nextPomodoro && out.1.nextPomodoro == id + 1
      && out.1.pomodoros.Keys == db.pomodoros.Keys + {id}
      && out.1.pomodoros[id] == NuevoPomodoro(idSesion, duracionActividad, duracionDescanso, ahora)
      && out.1.pomodoros[id].estado == EnProgreso && out.1.pomodoros[id].inicio == ahora
      && (forall k :: k in db.pomodoros && k != id ==> out.1.pomodoros[k] == db.pomodoros[k])
      && out.1.usuarios == db.usuarios && out.1.sesiones == db.sesiones
      && out.1.nextUsuario == db.nextUsuario && out.1.nextSesion == db.nextSesion
  {
    if idSesion !in db.sesiones then (Err(NotFound), db)
    else
      var id := db.nextPomodoro;
      (Ok(id), db.(pomodoros := db.pomodoros[id := NuevoPomodoro(idSesion, duracionActividad, duracionDescanso, ahora)],
                   nextPomodoro := id + 1))
  }

  /** d is db after pomodoro id has been moved to the terminal state estado with
      c minutes credited at instant ahora: its estado, minutos_completados and
      fin change together, its session's total grows by exactly c, and no other
      record changes. */
  ghost predicate Cerrado(db: Db, id: int, estado: Estado, c: int, ahora: int, d: Db)
    requires id in db.pomodoros
  {
    var p := db.pomodoros[id];
    && p.idSesion in db.sesiones
    && d.usuarios == db.usuarios
    && d.nextUsuario == db.nextUsuario && d.nextSesion == db.nextSesion && d.nextPomodoro == db.nextPomodoro
    && d.pomodoros.Keys == db.pomodoros.Keys && d.sesiones.Keys == db.sesiones.Keys
    && d.pomodoros[id] == p.(estado := estado, minutosCompletados := c, fin := Some(ahora))
    && (forall k :: k in db.pomodoros && k != id ==> d.pomodoros[k] == db.pomodoros[k])
    && d.sesiones[p.idSesion] == db.sesiones[p.idSesion].(
         totalMinutosAcumulados := db.sesiones[p.idSesion].totalMinutosAcumulados + c)
    && (forall s :: s in db.sesiones && s != p.idSesion ==> d.sesiones[s] == db.sesiones[s])
  }

  function Cerrar(db: Db, id: int, estado: Estado, c: int, ahora: int): (d: Db)
    requires id in db.pomodoros && db.pomodoros[id].idSesion in db.sesiones
    ensures Cerrado(db, id, estado, c, ahora, d)
  {
    var p := db.pomodoros[id];
    var s := db.sesiones[p.idSesion];
    db.(pomodoros := db.pomodoros[id := p.(estado := estado, minutosCompletados := c, fin := Some(ahora))],
        sesiones := db.sesiones[p.idSesion := s.(totalMinutosAcumulados := s.totalMinutosAcumulados + c)])
  }

  /** PUT /pomodoros/{id}/completar : 404 for an unknown pomodoro, 400 unless it
      is en_progreso (the database is then unchanged); otherwise it becomes
      completado and its session is credited the elapsed minutes clamped to
      [1, duracion_actividad]. */
  function CompletarPomodoro(db: Db, id: int, ahora: int): (out: (Result<int>, Db))
    requires ForeignKeys(db)
    ensures id !in db.pomodoros ==> out == (Err(NotFound), db)
    ensures id in db.pomodoros && db.pomodoros[id].estado != EnProgreso ==> out == (Err(BadRequest), db)
    ensures out.0.Ok? <==> id in db.pomodoros && db.pomodoros[id].estado == EnProgreso
    ensures out.0.Ok? ==>
      var p := db.pomodoros[id];
      && out.0.value == CreditoCompletar(MinutosTranscurridos(p.inicio, ahora), p.duracionActividad)
      && Cerrado(db, id, Completado, out.0.value, ahora, out.1)
  {
    if id !in db.pomodoros then (Err(NotFound), db)
    else
      var p := db.pomodoros[id];
      if p.estado != EnProgreso then (Err(BadRequest), db)
      else
        var c := CreditoCompletar(MinutosTranscurridos(p.inicio, ahora), p.duracionActividad);
        (Ok(c), Cerrar(db, id, Completado, c, ahora))
  }

  /** PUT /pomodoros/{id}/cancelar : the same checks as completing; otherwise it
      becomes cancelado and its session is still credited the elapsed minutes,
      raised to at least 1 but not capped. */
  function CancelarPomodoro(db: Db, id: int, ahora: int): (out: (Result<int>, Db))
    requires ForeignKeys(db)
    ensures id !in db.pomodoros ==> out == (Err(NotFound), db)
    ensures id in db.pomodoros && db.pomodoros[id].estado != EnProgreso ==> out == (Err(BadRequest), db)
    ensures out.0.Ok? <==> id in db.pomodoros && db.pomodoros[id].estado == EnProgreso
    ensures out.0.Ok? ==>
      var p := db.pomodoros[id];
      && out.0.value == CreditoCancelar(MinutosTranscurridos(p.inicio, ahora))
      && Cerrado(db, id, Cancelado, out.0.value, ahora, out.1)
  {
    if id !in db.pomodoros then (Err(NotFound), db)
    else
      var p := db.pomodoros[id];
      if p.estado != EnProgreso then (Err(BadRequest), db)
      else
        var c := CreditoCancelar(MinutosTranscurridos(p.inicio, ahora));
        (Ok(c), Cerrar(db, id, Cancelado, c, ahora))
  }

  function DeSesion(idSesion: int): Pomodoro -> bool
  {
    (p: Pomodoro) => p.idSesion == idSesion
  }

  /** GET /pomodoros/sesion/{id_sesion} : the session's pomodoros, in identifier
      order (empty for an unknown session). */
  function ListarPomodorosSesion(db: Db, idSesion: int): (r: seq<(int, Pomodoro)>)
    ensures forall j :: 0 <= j < |r| ==>
      r[j].0 in db.pomodoros && db.pomodoros[r[j].0] == r[j].1 && r[j].1.idSesion == idSesion
    ensures IdsBelow(db.pomodoros, db.nextPomodoro) ==>
      forall k :: k in db.pomodoros && db.pomodoros[k].idSesion == idSesion ==> (k, db.pomodoros[k]) in r
    ensures forall i, j :: 0 <= i < j < |r| ==> r[i].0 < r[j].0
  {
    Rows(db.pomodoros, DeSesion(idSesion), db.nextPomodoro)
  }

  // ------------------------------------------------------------ estadisticas

  datatype Estadisticas = Estadisticas(
    idUsuario: int,
    totalMinutos: int,
    totalSesiones: int,
    totalPomodorosCompletados: int)

  /** The total of session i when it belongs to user u, else 0. */
  function TotalDeUsuarioAt(sesiones: map<int, Sesion>, u: int): nat -> int
  {
    (i: nat) => if i in sesiones && sesiones[i].idUsuario == u then sesiones[i].totalMinutosAcumulados else 0
  }

  /** A completado pomodoro whose session belongs to user u (the join on sesiones). */
  function CompletadoDeUsuario(sesiones: map<int, Sesion>, u: int): Pomodoro -> bool
  {
    (p: Pomodoro) => p.estado == Completado && p.idSesion in sesiones && sesiones[p.idSesion].idUsuario == u
  }

  /** GET /estadisticas/usuario/{id_usuario} : the sum of the user's session
      totals (0 with no sessions), the number of the user's sessions, and the
      number of the user's pomodoros in state completado. A read: the caller
      keeps the same database. An unknown user gets zeros, not 404. */
  function ObtenerEstadisticasUsuario(db: Db, u: int): (r: Estadisticas)
    ensures r.idUsuario == u
    ensures r.totalSesiones == |ListarSesionesUsuario(db, u)|
    ensures r.totalPomodorosCompletados >= 0
  {
    RowsCount(db.sesiones, DeUsuario(u), db.nextSesion);
    Estadisticas(
      u,
      Sum(TotalDeUsuarioAt(db.sesiones, u), db.nextSesion),
      Count(db.sesiones, DeUsuario(u), db.nextSesion),
      Count(db.pomodoros, CompletadoDeUsuario(db.sesiones, u), db.nextPomodoro))
  }
}
