/** The three tables of the service (usuarios, sesiones, pomodoros), their
    column defaults and constraints, the whole database as one value, and the
    cascading deletes declared on the relationships. Timestamps are whole
    seconds. */
module Models {
  import opened Outcomes
  import opened Sums

  /** Lifecycle state of a pomodoro. The CHECK constraint ck_pomodoro_estado
      admits exactly the three strings these stand for. */
  datatype Estado = EnProgreso | Completado | Cancelado

  /** The string stored in the estado column. */
  function EstadoTexto(e: Estado): string
  {
    match e
    case EnProgreso => "en_progreso"
    case Completado => "completado"
    case Cancelado => "cancelado"
  }

  /** Reads an estado column value; None for every string the CHECK constraint refuses. */
  function EstadoDesdeTexto(s: string): (r: Option<Estado>)
    ensures r.Some? <==> s == "en_progreso" || s == "completado" || s == "cancelado"
    ensures r.Some? ==> EstadoTexto(r.value) == s
  {
    if s == "en_progreso" then Some(EnProgreso)
    else if s == "completado" then Some(Completado)
    else if s == "cancelado" then Some(Cancelado)
    else None
  }

  /** Storing a state and reading it back gives the same state. */
  lemma EstadoRoundTrip(e: Estado)
    ensures EstadoDesdeTexto(EstadoTexto(e)) == Some(e)
  {
  }

  datatype Usuario = Usuario(nickname: string, fechaCreacion: int)

  datatype Sesion = Sesion(
    idUsuario: int,
    nombreSesion: string,
    descripcion: Option<string>,
    fechaCreacion: int,
    totalMinutosAcumulados: int)

  datatype Pomodoro = Pomodoro(
    idSesion: int,
    duracionActividad: int,
    duracionDescanso: int,
    inicio: int,
    fin: Option<int>,
    estado: Estado,
    minutosCompletados: int)

  /** A session row as inserted: creation time from the server, total defaulting to 0. */
  function NuevaSesion(idUsuario: int, nombre: string, descripcion: Option<string>, ahora: int): (s: Sesion)
    ensures s.idUsuario == idUsuario && s.nombreSesion == nombre && s.descripcion == descripcion
    ensures s.fechaCreacion == ahora && s.totalMinutosAcumulados == 0
  {
    Sesion(idUsuario, nombre, descripcion, ahora, 0)
  }

  /** A pomodoro that has started and not yet ended. */
  predicate Abierto(p: Pomodoro)
  {
    p.estado == EnProgreso && p.fin == None && p.minutosCompletados == 0
  }

  /** A pomodoro row as inserted: no end time, estado and minutes at their defaults. */
  function NuevoPomodoro(idSesion: int, duracionActividad: int, duracionDescanso: int, inicio: int): (p: Pomodoro)
    ensures Abierto(p) && p.inicio == inicio && p.idSesion == idSesion
    ensures p.duracionActividad == duracionActividad && p.duracionDescanso == duracionDescanso
  {
    Pomodoro(idSesion, duracionActividad, duracionDescanso, inicio, None, EnProgreso, 0)
  }

  /** An open pomodoro is Abierto; a terminal one has its end time and at least one credited minute. */
  predicate ConsistentLifecycle(p: Pomodoro)
  {
    if p.estado == EnProgreso then Abierto(p) else p.fin.Some? && p.minutosCompletados >= 1
  }

  /** The whole database. Identifiers are assigned from the next* counters. */
  datatype Db = Db(
    usuarios: map<int, Usuario>,
    sesiones: map<int, Sesion>,
    pomodoros: map<int, Pomodoro>,
    nextUsuario: nat,
    nextSesion: nat,
    nextPomodoro: nat)

  function Empty(): Db
  {
    Db(map[], map[], map[], 1, 1, 1)
  }

  /** Minutes that pomodoro p has credited to session s. */
  function CreditTo(p: Pomodoro, s: int): int
  {
    if p.idSesion == s && p.estado != EnProgreso then p.minutosCompletados else 0
  }

  function CreditAt(pomodoros: map<int, Pomodoro>, s: int): nat -> int
  {
    (i: nat) => if i in pomodoros then CreditTo(pomodoros[i], s) else 0
  }

  /** Sum of minutos_completados over the terminal pomodoros of session s with identifier below n. */
  function Credited(pomodoros: map<int, Pomodoro>, s: int, n: nat): int
  {
    Sum(CreditAt(pomodoros, s), n)
  }

  /** Identifiers start at 1 and stay below the next one to be assigned. */
  ghost predicate IdsBelow<T>(m: map<int, T>, next: nat)
  {
    next >= 1 && forall k :: k in m ==> 1 <= k < next
  }

  /** nickname is UNIQUE. */
  ghost predicate NicknamesUnique(usuarios: map<int, Usuario>)
  {
    forall a, b :: a in usuarios && b in usuarios && usuarios[a].nickname == usuarios[b].nickname ==> a == b
  }

  /** The two FOREIGN KEY constraints. */
  ghost predicate ForeignKeys(db: Db)
  {
    && (forall s :: s in db.sesiones ==> db.sesiones[s].idUsuario in db.usuarios)
    && (forall p :: p in db.pomodoros ==> db.pomodoros[p].idSesion in db.sesiones)
  }

  /** Each session total is the sum of what its terminal pomodoros credited. */
  ghost predicate Conserved(db: Db)
  {
    forall s {:trigger Credited(db.pomodoros, s, db.nextPomodoro)} :: s in db.sesiones ==>
      db.sesiones[s].totalMinutosAcumulados == Credited(db.pomodoros, s, db.nextPomodoro)
  }

  ghost predicate Valid(db: Db)
  {
    && IdsBelow(db.usuarios, db.nextUsuario)
    && IdsBelow(db.sesiones, db.nextSesion)
    && IdsBelow(db.pomodoros, db.nextPomodoro)
    && NicknamesUnique(db.usuarios)
    && ForeignKeys(db)
    && (forall p :: p in db.pomodoros ==> ConsistentLifecycle(db.pomodoros[p]))
    && Conserved(db)
  }

  lemma EmptyValid()
    ensures Valid(Empty())
  {
  }

  /** Deleting a session deletes its pomodoros (ON DELETE CASCADE, delete-orphan).
      Deleting an identifier that is absent deletes nothing. */
  function EliminarSesion(db: Db, id: int): (d: Db)
    ensures id !in d.sesiones
    ensures forall p :: p in d.pomodoros <==> p in db.pomodoros && db.pomodoros[p].idSesion != id
    ensures forall p :: p in db.pomodoros && db.pomodoros[p].idSesion != id ==>
      p in d.pomodoros && d.pomodoros[p] == db.pomodoros[p]
    ensures forall s :: s in db.sesiones && s != id ==> s in d.sesiones && d.sesiones[s] == db.sesiones[s]
    ensures d.sesiones.Keys <= db.sesiones.Keys && d.pomodoros.Keys <= db.pomodoros.Keys
    ensures d.usuarios == db.usuarios
    ensures d.nextUsuario == db.nextUsuario && d.nextSesion == db.nextSesion && d.nextPomodoro == db.nextPomodoro
  {
    db.(sesiones := db.sesiones - {id},
        pomodoros := map p | p in db.pomodoros && db.pomodoros[p].idSesion != id :: db.pomodoros[p])
  }

  /** p belongs to a session of some user other than id. */
  predicate SurvivesUserDeletion(db: Db, p: Pomodoro, id: int)
  {
    p.idSesion in db.sesiones && db.sesiones[p.idSesion].idUsuario != id
  }

  /** Deleting a user deletes its sessions and, through them, their pomodoros. */
  function EliminarUsuario(db: Db, id: int): (d: Db)
    ensures id !in d.usuarios
    ensures forall s :: s in d.sesiones <==> s in db.sesiones && db.sesiones[s].idUsuario != id
    ensures forall p :: p in d.pomodoros <==> p in db.pomodoros && SurvivesUserDeletion(db, db.pomodoros[p], id)
    ensures forall s :: s in db.sesiones && db.sesiones[s].idUsuario != id ==>
      s in d.sesiones && d.sesiones[s] == db.sesiones[s]
    ensures forall p :: p in db.pomodoros && SurvivesUserDeletion(db, db.pomodoros[p], id) ==>
      p in d.pomodoros && d.pomodoros[p] == db.pomodoros[p]
    ensures forall u :: u in db.usuarios && u != id ==> u in d.usuarios && d.usuarios[u] == db.usuarios[u]
    ensures d.usuarios.Keys <= db.usuarios.Keys && d.sesiones.Keys <= db.sesiones.Keys
    ensures d.pomodoros.Keys <= db.pomodoros.Keys
    ensures d.nextUsuario == db.nextUsuario && d.nextSesion == db.nextSesion && d.nextPomodoro == db.nextPomodoro
  {
    db.(usuarios := db.usuarios - {id},
        sesiones := map s | s in db.sesiones && db.sesiones[s].idUsuario != id :: db.sesiones[s],
        pomodoros := map p | p in db.pomodoros && SurvivesUserDeletion(db, db.pomodoros[p], id) :: db.pomodoros[p])
  }
}
