/** The service's write routes as they run against the database: a store whose
    tables are updated in place, one request at a time. Each method does what
    the route of the same name does, and is proved to leave the tables as the
    matching function of Endpoints says, keeping Models.Valid. */
module Routers {
  import opened Outcomes
  import opened Models
  import opened Timing
  import Endpoints
  import Invariants

  class Store {
    var usuarios: map<int, Usuario>
    var sesiones: map<int, Sesion>
    var pomodoros: map<int, Pomodoro>
    var nextUsuario: nat
    var nextSesion: nat
    var nextPomodoro: nat

    /** The tables as one database value. */
    function Model(): Db
      reads this
    {
      Db(usuarios, sesiones, pomodoros, nextUsuario, nextSesion, nextPomodoro)
    }

    ghost predicate Valid()
      reads this
    {
      Models.Valid(Model())
    }

    constructor ()
      ensures Model() == Empty() && Valid()
    {
      usuarios, sesiones, pomodoros := map[], map[], map[];
      nextUsuario, nextSesion, nextPomodoro := 1, 1, 1;
      EmptyValid();
    }

    method CrearUsuario(nickname: string, ahora: int) returns (r: Result<int>)
      requires Valid()
      modifies this
      ensures Valid()
      ensures (r, Model()) == Endpoints.CrearUsuario(old(Model()), nickname, ahora)
    {
      Invariants.CrearUsuarioValid(Model(), nickname, ahora);
      if exists k | k in usuarios :: usuarios[k].nickname == nickname {
        return Err(BadRequest);
      }
      var id := nextUsuario;
      usuarios := usuarios[id := Usuario(nickname, ahora)];
      nextUsuario := nextUsuario + 1;
      r := Ok(id);
    }

    method CrearSesion(idUsuario: int, nombreSesion: string, descripcion: Option<string>, ahora: int)
      returns (r: Result<int>)
      requires Valid()
      modifies this
      ensures Valid()
      ensures (r, Model()) == Endpoints.CrearSesion(old(Model()), idUsuario, nombreSesion, descripcion, ahora)
    {
      Invariants.CrearSesionValid(Model(), idUsuario, nombreSesion, descripcion, ahora);
      if idUsuario !in usuarios {
        return Err(NotFound);
      }
      var id := nextSesion;
      sesiones := sesiones[id := NuevaSesion(idUsuario, nombreSesion, descripcion, ahora)];
      nextSesion := nextSesion + 1;
      r := Ok(id);
    }

    method IniciarPomodoro(idSesion: int, ahora: int, duracionActividad: int := 25, duracionDescanso: int := 5)
      returns (r: Result<int>)
      requires Valid()
      modifies this
      ensures Valid()
      ensures (r, Model()) == Endpoints.IniciarPomodoro(old(Model()), idSesion, ahora, duracionActividad, duracionDescanso)
    {
      Invariants.IniciarPomodoroValid(Model(), idSesion, ahora, duracionActividad, duracionDescanso);
      if idSesion !in sesiones {
        return Err(NotFound);
      }
      var id := nextPomodoro;
      pomodoros := pomodoros[id := NuevoPomodoro(idSesion, duracionActividad, duracionDescanso, ahora)];
      nextPomodoro := nextPomodoro + 1;
      r := Ok(id);
    }

    /** Returns the minutes credited. */
    method CompletarPomodoro(id: int, ahora: int) returns (r: Result<int>)
      requires Valid()
      modifies this
      ensures Valid()
      ensures (r, Model()) == Endpoints.CompletarPomodoro(old(Model()), id, ahora)
    {
      ghost var antes := Model();
      if id !in pomodoros {
        return Err(NotFound);
      }
      var pomodoro := pomodoros[id];
      if pomodoro.estado != EnProgreso {
        return Err(BadRequest);
      }
      var minutos := MinutosTranscurridos(pomodoro.inicio, ahora);
      if minutos > pomodoro.duracionActividad {
        minutos := pomodoro.duracionActividad;
      }
      if minutos < 1 {
        minutos := 1;
      }
      assert minutos == CreditoCompletar(MinutosTranscurridos(pomodoro.inicio, ahora), pomodoro.duracionActividad);
      pomodoros := pomodoros[id := pomodoro.(estado := Completado, minutosCompletados := minutos, fin := Some(ahora))];
      var sesion := sesiones[pomodoro.idSesion];
      sesiones := sesiones[pomodoro.idSesion := sesion.(totalMinutosAcumulados := sesion.totalMinutosAcumulados + minutos)];
      r := Ok(minutos);
      ghost var esperado := Endpoints.Cerrar(antes, id, Completado, minutos, ahora);
      assert Model() == esperado by {
        assert pomodoros == esperado.pomodoros;
        assert sesiones == esperado.sesiones;
      }
      assert Valid() by {
        Invariants.CerrarValid(antes, id, Completado, minutos, ahora);
      }
    }

    /** Returns the minutes credited. */
    method CancelarPomodoro(id: int, ahora: int) returns (r: Result<int>)
      requires Valid()
      modifies this
      ensures Valid()
      ensures (r, Model()) == Endpoints.CancelarPomodoro(old(Model()), id, ahora)
    {
      ghost var antes := Model();
      if id !in pomodoros {
        return Err(NotFound);
      }
      var pomodoro := pomodoros[id];
      if pomodoro.estado != EnProgreso {
        return Err(BadRequest);
      }
      var minutos := MinutosTranscurridos(pomodoro.inicio, ahora);
      if minutos < 1 {
        minutos := 1;
      }
      assert minutos == CreditoCancelar(MinutosTranscurridos(pomodoro.inicio, ahora));
      pomodoros := pomodoros[id := pomodoro.(estado := Cancelado, minutosCompletados := minutos, fin := Some(ahora))];
      var sesion := sesiones[pomodoro.idSesion];
      sesiones := sesiones[pomodoro.idSesion := sesion.(totalMinutosAcumulados := sesion.totalMinutosAcumulados + minutos)];
      r := Ok(minutos);
      ghost var esperado := Endpoints.Cerrar(antes, id, Cancelado, minutos, ahora);
      assert Model() == esperado by {
        assert pomodoros == esperado.pomodoros;
        assert sesiones == esperado.sesiones;
      }
      assert Valid() by {
        Invariants.CerrarValid(antes, id, Cancelado, minutos, ahora);
      }
    }
  }

  /** A user starts a 25-minute pomodoro and completes it at once: one minute is
      credited and a second completion is refused. */
  method Escenario(t: int)
  {
    var store := new Store();
    var u := store.CrearUsuario("ana", t);
    assert u == Ok(1);
    var dup := store.CrearUsuario("ana", t);
    assert dup == Err(BadRequest);
    var s := store.CrearSesion(1, "Estudio", None, t);
    assert s == Ok(1);
    var p := store.IniciarPomodoro(1, t);
    assert p == Ok(1);
    var c := store.CompletarPomodoro(1, t + 30);
    assert c == Ok(1);
    assert store.sesiones[1].totalMinutosAcumulados == 1;
    var again := store.CompletarPomodoro(1, t + 90);
    assert again == Err(BadRequest);
    var missing := store.CancelarPomodoro(7, t + 90);
    assert missing == Err(NotFound);
  }
}
