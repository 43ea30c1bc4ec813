/** The global staff messages of `MensajeGlobalViewSet`: the sweep that retires
    expired messages (run by every lookup and by `limpiar_expirados`), replying,
    deleting one's own reply and deleting one's own message. */
module MensajeViews {
  import opened Common
  import opened Text
  import opened Models

  /** A `MensajeGlobal` row: its author (a worker id), when it expires, and whether
      it is still shown. */
  datatype Mensaje = Mensaje(trabajador: nat, fechaExpiracion: Instant, activo: bool)

  /** A `RespuestaMensajeGlobal` row: the message it answers, its author (a worker
      id) and its text. */
  datatype Respuesta = Respuesta(mensaje: nat, trabajador: nat, texto: string)

  // ===========================================================================
  // The sweep, as a function of the two tables
  // ===========================================================================

  /** The active messages whose expiry has been reached. */
  function ExpiringIds(ms: map<nat, Mensaje>, now: Instant): set<nat> {
    set id | id in ms && ms[id].activo && ms[id].fechaExpiracion <= now
  }

  /** `filter(fecha_expiracion__lte=now, activo=True).update(activo=False)` */
  function Deactivate(ms: map<nat, Mensaje>, now: Instant): (d: map<nat, Mensaje>)
    ensures d.Keys == ms.Keys
    ensures forall id :: id in ms ==> (d[id].activo <==> ms[id].activo && ms[id].fechaExpiracion > now)
    ensures forall id :: id in ms ==> d[id] == ms[id].(activo := d[id].activo)
  {
    map id | id in ms :: if id in ExpiringIds(ms, now) then ms[id].(activo := false) else ms[id]
  }

  /** The inactive messages that expired at or before `limite`. */
  function StaleIds(ms: map<nat, Mensaje>, limite: Instant): (r: set<nat>)
    ensures r <= ms.Keys
    ensures forall id :: id in r ==> !ms[id].activo
    ensures forall id :: id in ms && ms[id].fechaExpiracion > limite ==> id !in r
  {
    set id | id in ms && !ms[id].activo && ms[id].fechaExpiracion <= limite
  }

  /** The replies to any of the messages `ids`. */
  function RepliesTo(rs: map<nat, Respuesta>, ids: set<nat>): set<nat> {
    set rid | rid in rs && rs[rid].mensaje in ids
  }

  /** The messages other than `ids`. */
  function WithoutMessages(ms: map<nat, Mensaje>, ids: set<nat>): map<nat, Mensaje> {
    map id | id in ms && id !in ids :: ms[id]
  }

  /** The replies other than `rids`. */
  function WithoutReplies(rs: map<nat, Respuesta>, rids: set<nat>): map<nat, Respuesta> {
    map rid | rid in rs && rid !in rids :: rs[rid]
  }

  /** The tables after a sweep, how many messages it deactivated, and how many rows
      its delete removed (the stale messages and, by cascade, their replies). */
  datatype Swept = Swept(mensajes: map<nat, Mensaje>, respuestas: map<nat, Respuesta>,
                         desactivados: nat, eliminados: nat)

  /** Every reply answers a stored message. */
  ghost predicate RepliesAttached(ms: map<nat, Mensaje>, rs: map<nat, Respuesta>) {
    forall rid :: rid in rs ==> rs[rid].mensaje in ms
  }

  /** The sweep at instant `now`: deactivate the expired messages, then delete the
      inactive ones that expired a day or more before `now`. */
  function Sweep(ms: map<nat, Mensaje>, rs: map<nat, Respuesta>, now: Instant): (s: Swept)
    ensures s.mensajes.Keys <= ms.Keys && s.respuestas.Keys <= rs.Keys
    ensures s.desactivados <= |ms|
    ensures s.eliminados == |ms.Keys - s.mensajes.Keys| + |rs.Keys - s.respuestas.Keys|
  {
    var deactivated := Deactivate(ms, now);
    var stale := StaleIds(deactivated, now - ONE_DAY);
    var orphans := RepliesTo(rs, stale);
    assert ms.Keys - WithoutMessages(deactivated, stale).Keys == stale;
    assert rs.Keys - WithoutReplies(rs, orphans).Keys == orphans;
    SubsetCardinality(ExpiringIds(ms, now), ms.Keys);
    Swept(WithoutMessages(deactivated, stale), WithoutReplies(rs, orphans),
          |ExpiringIds(ms, now)|, |stale| + |orphans|)
  }

  /** After a sweep no message is active past its expiry; every message that
      expired a day or more ago is gone; a message not yet expired is kept as it
      was; an expired message that is kept is only deactivated; no message appears;
      replies are removed exactly with their message. */
  lemma SweepGuarantees(ms: map<nat, Mensaje>, rs: map<nat, Respuesta>, now: Instant)
    ensures var s := Sweep(ms, rs, now);
      && s.mensajes.Keys <= ms.Keys
      && (forall id :: id in s.mensajes ==> !(s.mensajes[id].activo && s.mensajes[id].fechaExpiracion <= now))
      && (forall id :: id in ms && ms[id].fechaExpiracion <= now - ONE_DAY ==> id !in s.mensajes)
      && (forall id :: id in ms && ms[id].fechaExpiracion > now ==> id in s.mensajes && s.mensajes[id] == ms[id])
      && (forall id :: id in s.mensajes && ms[id].fechaExpiracion <= now ==> s.mensajes[id] == ms[id].(activo := false))
      && (forall rid :: rid in rs ==> (rid in s.respuestas <==> rs[rid].mensaje in s.mensajes || rs[rid].mensaje !in ms))
      && (forall rid :: rid in s.respuestas ==> s.respuestas[rid] == rs[rid])
      && (RepliesAttached(ms, rs) ==> RepliesAttached(s.mensajes, s.respuestas))
  {
    var d := Deactivate(ms, now);
    var stale := StaleIds(d, now - ONE_DAY);
    forall id | id in ms && ms[id].fechaExpiracion <= now - ONE_DAY ensures id in stale {
      assert !d[id].activo;
    }
    forall id | id in ms && ms[id].fechaExpiracion > now ensures id !in stale {
    }
  }

  /** For a fixed `now` a second sweep finds nothing to do. */
  lemma SweepIdempotent(ms: map<nat, Mensaje>, rs: map<nat, Respuesta>, now: Instant)
    ensures var s1 := Sweep(ms, rs, now);
      var s2 := Sweep(s1.mensajes, s1.respuestas, now);
      s2 == Swept(s1.mensajes, s1.respuestas, 0, 0)
  {
    var s1 := Sweep(ms, rs, now);
    SweptLeavesNothingToDo(ms, rs, now);
    SweepWithNothingToDo(s1.mensajes, s1.respuestas, now);
  }

  /** After a sweep no message is due for deactivation or deletion at `now`. */
  lemma SweptLeavesNothingToDo(ms: map<nat, Mensaje>, rs: map<nat, Respuesta>, now: Instant)
    ensures ExpiringIds(Sweep(ms, rs, now).mensajes, now) == {}
    ensures StaleIds(Sweep(ms, rs, now).mensajes, now - ONE_DAY) == {}
  {
    var m1 := Sweep(ms, rs, now).mensajes;
    SweepGuarantees(ms, rs, now);
    var d := Deactivate(ms, now);
    var stale := StaleIds(d, now - ONE_DAY);
    forall id | id in m1 ensures !(!m1[id].activo && m1[id].fechaExpiracion <= now - ONE_DAY) {
      assert m1[id] == d[id];
      assert id !in stale;
    }
  }

  /** A sweep with nothing due changes nothing and counts nothing. */
  lemma SweepWithNothingToDo(ms: map<nat, Mensaje>, rs: map<nat, Respuesta>, now: Instant)
    requires ExpiringIds(ms, now) == {} && StaleIds(ms, now - ONE_DAY) == {}
    ensures Sweep(ms, rs, now) == Swept(ms, rs, 0, 0)
  {
    assert Deactivate(ms, now) == ms;
    assert RepliesTo(rs, {}) == {};
    assert WithoutMessages(ms, {}) == ms;
    assert WithoutReplies(rs, {}) == rs;
  }

  /** The ids of the active messages: what `get_queryset` returns. */
  function ActiveIds(ms: map<nat, Mensaje>): set<nat> {
    set id | id in ms && ms[id].activo
  }

  /** What a lookup after a sweep returns is never expired. */
  lemma ActiveAfterSweepUnexpired(ms: map<nat, Mensaje>, rs: map<nat, Respuesta>, now: Instant, id: nat)
    requires id in ActiveIds(Sweep(ms, rs, now).mensajes)
    ensures Sweep(ms, rs, now).mensajes[id].fechaExpiracion > now
    ensures id in ms && ms[id] == Sweep(ms, rs, now).mensajes[id]
  {
    SweepGuarantees(ms, rs, now);
  }

  // ===========================================================================
  // The message board and its handlers
  // ===========================================================================

  /** A scalar of the JSON request body (arrays and objects are not modelled). */
  datatype JsonValue = JsonNull | JsonBool(b: bool) | JsonNumber(n: int) | JsonText(text: string)

  /** Python truthiness of a decoded JSON scalar. */
  predicate Truthy(v: JsonValue) {
    match v
    case JsonNull => false
    case JsonBool(b) => b
    case JsonNumber(n) => n != 0
    case JsonText(t) => t != ""
  }

  /** `request.data.get(name, '').strip()`: the stripped text, or `None` when the
      value is not a string and `.strip()` raises. */
  function StrippedField(field: Option<JsonValue>): (r: Option<string>)
    ensures field.None? ==> r == Some("")
    ensures field.Some? && field.value.JsonText? ==> r == Some(Strip(field.value.text))
    ensures field.Some? && !field.value.JsonText? ==> r.None?
  {
    match field
    case None => Some("")
    case Some(JsonText(t)) => Some(Strip(t))
    case Some(_) => None
  }

  /** The primary key `get(id=value)` looks up: `int(value)` as the id field
      converts it, or `None` when that conversion raises. Meant for truthy values
      only (a falsy one never reaches the lookup). */
  function IdLookup(v: JsonValue): (r: Option<int>)
    ensures v.JsonNumber? ==> r == Some(v.n)
    ensures v.JsonBool? ==> r == Some(if v.b then 1 else 0)
    ensures v.JsonText? ==> r == ParseInt(v.text)
    ensures v.JsonNull? ==> r.None?
  {
    match v
    case JsonNull => None
    case JsonBool(b) => Some(if b then 1 else 0)
    case JsonNumber(n) => Some(n)
    case JsonText(t) => ParseInt(t)
  }

  /** The text `"0"` is truthy, so it gets past the 400 check and is looked up as
      id 0, which no stored reply has: the caller gets 404, not 400. */
  lemma ZeroTextIsLookedUp(rs: map<nat, Respuesta>, pk: nat)
    requires forall id :: id in rs ==> id >= 1
    ensures Truthy(JsonText("0")) && IdLookup(JsonText("0")) == Some(0)
    ensures !ReplyOf(rs, 0, pk)
  {
    ParseIntOfDigits("0");
    assert DigitsValue("0") == 0;
  }

  /** `RespuestaMensajeGlobal.objects.get(id=id, mensaje_global_id=pk)` finds a row. */
  predicate ReplyOf(rs: map<nat, Respuesta>, id: int, pk: int) {
    id >= 0 && id as nat in rs && rs[id as nat].mensaje == pk
  }

  /** How a handler answered: the status code, and for `limpiar_expirados` the
      two counts it reports. */
  datatype Reply = Status(code: int) | Cleaned(desactivados: nat, eliminados: nat)

  /** The `MensajeGlobal` and `RespuestaMensajeGlobal` tables. */
  class MessageBoard {
    var mensajes: map<nat, Mensaje>
    var respuestas: map<nat, Respuesta>
    /** The id the next reply receives. */
    var nextRespuestaId: nat

    ghost predicate Valid()
      reads this
    {
      && RepliesAttached(mensajes, respuestas)
      && forall rid :: rid in respuestas ==> rid < nextRespuestaId
    }

    constructor ()
      ensures Valid() && mensajes == map[] && respuestas == map[] && nextRespuestaId == 0
    {
      mensajes := map[];
      respuestas := map[];
      nextRespuestaId := 0;
    }

    /** Runs the sweep on the stored tables. */
    method RunSweep(now: Instant) returns (desactivados: nat, eliminados: nat)
      requires Valid()
      modifies this
      ensures Valid()
      ensures Sweep(old(mensajes), old(respuestas), now) == Swept(mensajes, respuestas, desactivados, eliminados)
      ensures nextRespuestaId == old(nextRespuestaId)
    {
      var s := Sweep(mensajes, respuestas, now);
      SweepGuarantees(mensajes, respuestas, now);
      mensajes, respuestas := s.mensajes, s.respuestas;
      desactivados, eliminados := s.desactivados, s.eliminados;
    }

    /** `get_queryset`: sweeps, then returns the active messages. */
    method GetQueryset(now: Instant) returns (activos: set<nat>)
      requires Valid()
      modifies this
      ensures Valid()
      ensures Sweep(old(mensajes), old(respuestas), now).mensajes == mensajes
      ensures Sweep(old(mensajes), old(respuestas), now).respuestas == respuestas
      ensures activos == ActiveIds(mensajes)
      ensures forall id :: id in activos ==> mensajes[id].fechaExpiracion > now
    {
      var _, _ := RunSweep(now);
      activos := ActiveIds(mensajes);
      forall id | id in activos ensures mensajes[id].fechaExpiracion > now {
        ActiveAfterSweepUnexpired(old(mensajes), old(respuestas), now, id);
      }
    }

    /** `destroy`: the lookup sweeps and answers 404 for a message that is not
        active; a caller who is not a worker gets 403, as does a worker who did not
        write the message; otherwise the message and its replies are deleted (204). */
    method Destroy(pk: nat, user: nat, staff: StaffDirectory, now: Instant) returns (reply: Reply)
      requires Valid()
      modifies this
      ensures Valid()
      ensures var s := Sweep(old(mensajes), old(respuestas), now);
        && (pk !in ActiveIds(s.mensajes) ==> reply == Status(HTTP_404_NOT_FOUND))
        && (pk in ActiveIds(s.mensajes) && user !in staff ==> reply == Status(HTTP_403_FORBIDDEN))
        && (pk in ActiveIds(s.mensajes) && user in staff && s.mensajes[pk].trabajador != staff[user].trabajadorId ==>
              reply == Status(HTTP_403_FORBIDDEN))
        && (reply != Status(HTTP_204_NO_CONTENT) ==> mensajes == s.mensajes && respuestas == s.respuestas)
        && (reply == Status(HTTP_204_NO_CONTENT) <==>
              pk in ActiveIds(s.mensajes) && user in staff && s.mensajes[pk].trabajador == staff[user].trabajadorId)
        && (reply == Status(HTTP_204_NO_CONTENT) ==>
              mensajes == WithoutMessages(s.mensajes, {pk}) &&
              respuestas == WithoutReplies(s.respuestas, RepliesTo(s.respuestas, {pk})))
    {
      var _, _ := RunSweep(now);
      if pk !in ActiveIds(mensajes) {
        return Status(HTTP_404_NOT_FOUND);
      }
      if user !in staff {
        return Status(HTTP_403_FORBIDDEN);
      }
      if mensajes[pk].trabajador != staff[user].trabajadorId {
        return Status(HTTP_403_FORBIDDEN);
      }
      respuestas := WithoutReplies(respuestas, RepliesTo(respuestas, {pk}));
      mensajes := WithoutMessages(mensajes, {pk});
      reply := Status(HTTP_204_NO_CONTENT);
    }

    /** `responder`: the lookup sweeps and answers 404 for a message that is not
        active; then an expired message gives 400, a caller who is not a worker
        403, a `respuesta` that is not a string 500 (`.strip()` raises), one that is
        empty once stripped 400; otherwise exactly one reply, holding the stripped
        text, is added (201). `estaExpirado` stands for
        `MensajeGlobal.esta_expirado`. */
    method Responder(pk: nat, user: nat, staff: StaffDirectory, texto: Option<JsonValue>, now: Instant,
                     estaExpirado: Mensaje -> bool)
      returns (reply: Reply)
      requires Valid()
      modifies this
      ensures Valid()
      ensures mensajes == Sweep(old(mensajes), old(respuestas), now).mensajes
      ensures pk !in ActiveIds(mensajes) ==> reply == Status(HTTP_404_NOT_FOUND)
      ensures pk in ActiveIds(mensajes) && estaExpirado(mensajes[pk]) ==> reply == Status(HTTP_400_BAD_REQUEST)
      ensures pk in ActiveIds(mensajes) && !estaExpirado(mensajes[pk]) && user !in staff ==>
        reply == Status(HTTP_403_FORBIDDEN)
      ensures pk in ActiveIds(mensajes) && !estaExpirado(mensajes[pk]) && user in staff && StrippedField(texto).None?
        ==> reply == Status(HTTP_500_INTERNAL_SERVER_ERROR)
      ensures pk in ActiveIds(mensajes) && !estaExpirado(mensajes[pk]) && user in staff && StrippedField(texto) == Some("")
        ==> reply == Status(HTTP_400_BAD_REQUEST)
      ensures reply == Status(HTTP_201_CREATED) <==>
        && pk in ActiveIds(mensajes) && !estaExpirado(mensajes[pk]) && user in staff
        && StrippedField(texto).Some? && StrippedField(texto).value != ""
      ensures reply == Status(HTTP_201_CREATED) ==>
        && old(nextRespuestaId) !in Sweep(old(mensajes), old(respuestas), now).respuestas
        && respuestas == Sweep(old(mensajes), old(respuestas), now).respuestas[
             old(nextRespuestaId) := Respuesta(pk, staff[user].trabajadorId, StrippedField(texto).value)]
      ensures reply != Status(HTTP_201_CREATED) ==> respuestas == Sweep(old(mensajes), old(respuestas), now).respuestas
    {
      var _, _ := RunSweep(now);
      if pk !in ActiveIds(mensajes) {
        return Status(HTTP_404_NOT_FOUND);
      }
      if estaExpirado(mensajes[pk]) {
        return Status(HTTP_400_BAD_REQUEST);
      }
      if user !in staff {
        return Status(HTTP_403_FORBIDDEN);
      }
      var stripped := StrippedField(texto);
      if stripped.None? {
        return Status(HTTP_500_INTERNAL_SERVER_ERROR);
      }
      var text := stripped.value;
      if text == "" {
        return Status(HTTP_400_BAD_REQUEST);
      }
      respuestas := respuestas[nextRespuestaId := Respuesta(pk, staff[user].trabajadorId, text)];
      nextRespuestaId := nextRespuestaId + 1;
      reply := Status(HTTP_201_CREATED);
    }

    /** `eliminar_respuesta` (no sweep: it does no lookup of the message): a missing
        or falsy `respuesta_id` (`null`, `false`, `0`, `""`) gives 400, a caller who
        is not a worker 403; then the query converts the reply id and the message id
        of the URL (`pk`, text the default route admits) to integers, and either
        failing gives 500; no reply with that id under that message gives 404, a
        reply by someone else 403; otherwise that reply alone is deleted (204). */
    method EliminarRespuesta(pk: string, respuestaId: Option<JsonValue>, user: nat, staff: StaffDirectory)
      returns (reply: Reply)
      requires Valid()
      modifies this`respuestas
      ensures Valid()
      ensures respuestaId.None? || !Truthy(respuestaId.value) ==> reply == Status(HTTP_400_BAD_REQUEST)
      ensures respuestaId.Some? && Truthy(respuestaId.value) && user !in staff ==> reply == Status(HTTP_403_FORBIDDEN)
      ensures respuestaId.Some? && Truthy(respuestaId.value) && user in staff &&
        (IdLookup(respuestaId.value).None? || ParseInt(pk).None?)
        ==> reply == Status(HTTP_500_INTERNAL_SERVER_ERROR)
      ensures respuestaId.Some? && Truthy(respuestaId.value) && user in staff &&
        IdLookup(respuestaId.value).Some? && ParseInt(pk).Some? &&
        !ReplyOf(old(respuestas), IdLookup(respuestaId.value).value, ParseInt(pk).value)
        ==> reply == Status(HTTP_404_NOT_FOUND)
      ensures reply == Status(HTTP_204_NO_CONTENT) <==>
        && respuestaId.Some? && Truthy(respuestaId.value) && user in staff
        && IdLookup(respuestaId.value).Some? && ParseInt(pk).Some?
        && ReplyOf(old(respuestas), IdLookup(respuestaId.value).value, ParseInt(pk).value)
        && old(respuestas)[IdLookup(respuestaId.value).value as nat].trabajador == staff[user].trabajadorId
      ensures respuestas == if reply == Status(HTTP_204_NO_CONTENT)
                            then old(respuestas) - {IdLookup(respuestaId.value).value as nat}
                            else old(respuestas)
    {
      if respuestaId.None? || !Truthy(respuestaId.value) {
        return Status(HTTP_400_BAD_REQUEST);
      }
      if user !in staff {
        return Status(HTTP_403_FORBIDDEN);
      }
      var id := IdLookup(respuestaId.value);
      var mensajeId := ParseInt(pk);
      if id.None? || mensajeId.None? {
        return Status(HTTP_500_INTERNAL_SERVER_ERROR);
      }
      if !ReplyOf(respuestas, id.value, mensajeId.value) {
        return Status(HTTP_404_NOT_FOUND);
      }
      var rid := id.value as nat;
      if respuestas[rid].trabajador != staff[user].trabajadorId {
        return Status(HTTP_403_FORBIDDEN);
      }
      respuestas := respuestas - {rid};
      reply := Status(HTTP_204_NO_CONTENT);
    }

    /** `limpiar_expirados`: a caller who is not a worker gets 403 and nothing
        changes; otherwise the sweep runs and its two counts are reported. */
    method LimpiarExpirados(user: nat, staff: StaffDirectory, now: Instant) returns (reply: Reply)
      requires Valid()
      modifies this
      ensures Valid()
      ensures user !in staff ==>
        reply == Status(HTTP_403_FORBIDDEN) && mensajes == old(mensajes) && respuestas == old(respuestas)
      ensures user in staff ==>
        var s := Sweep(old(mensajes), old(respuestas), now);
        reply == Cleaned(s.desactivados, s.eliminados) && mensajes == s.mensajes && respuestas == s.respuestas
    {
      if user !in staff {
        return Status(HTTP_403_FORBIDDEN);
      }
      var desactivados, eliminados := RunSweep(now);
      reply := Cleaned(desactivados, eliminados);
    }
  }

  /** Cleaning twice at the same instant: the second run reports nothing and
      changes nothing. */
  method CleanTwice(board: MessageBoard, user: nat, staff: StaffDirectory, now: Instant)
    returns (first: Reply, second: Reply)
    requires board.Valid() && user in staff
    modifies board
    ensures second == Cleaned(0, 0)
    ensures board.mensajes == Sweep(old(board.mensajes), old(board.respuestas), now).mensajes
  {
    first := board.LimpiarExpirados(user, staff, now);
    SweepIdempotent(old(board.mensajes), old(board.respuestas), now);
    second := board.LimpiarExpirados(user, staff, now);
  }
}
