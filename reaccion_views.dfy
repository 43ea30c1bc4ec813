/** `reacciones_noticia`: anyone reads an article's reaction counts; a signed-in
    user sets (upserts) or withdraws their own reaction. */
module ReaccionViews {
  import opened Common
  import opened Models

  /** `update_or_create(noticia, usuario, defaults={'tipo_reaccion': tipo})` */
  function Upsert(reacciones: ReactionTable, noticia: nat, usuario: nat, tipo: string): (r: ReactionTable)
    ensures r.Keys == reacciones.Keys + {(noticia, usuario)}
    ensures r[(noticia, usuario)] == tipo
    ensures forall key :: key in reacciones && key != (noticia, usuario) ==> r[key] == reacciones[key]
  {
    reacciones[(noticia, usuario) := tipo]
  }

  /** `filter(noticia, usuario).delete()` */
  function Withdraw(reacciones: ReactionTable, noticia: nat, usuario: nat): (r: ReactionTable)
    ensures r.Keys == reacciones.Keys - {(noticia, usuario)}
    ensures forall key :: key in r ==> r[key] == reacciones[key]
  {
    reacciones - {(noticia, usuario)}
  }

  /** Removing one element that is present lowers a set's size by one. */
  lemma SizeWithout<T>(s: set<T>, x: T)
    requires x in s
    ensures |s - {x}| == |s| - 1
  {
  }

  /** An upsert adds a reaction to the article exactly when the user had none, so a
      user holds at most one reaction per article; other articles are untouched. */
  lemma UpsertReactions(reacciones: ReactionTable, noticia: nat, usuario: nat, tipo: string)
    ensures |ReactionsTo(Upsert(reacciones, noticia, usuario, tipo), noticia)| ==
            |ReactionsTo(reacciones, noticia)| + (if (noticia, usuario) in reacciones then 0 else 1)
    ensures forall m :: m != noticia ==> ReactionsTo(Upsert(reacciones, noticia, usuario, tipo), m) == ReactionsTo(reacciones, m)
  {
    var before := ReactionsTo(reacciones, noticia);
    UpsertAddsKey(reacciones, noticia, usuario, tipo);
    if (noticia, usuario) in reacciones {
      assert before + {(noticia, usuario)} == before;
    } else {
      assert (noticia, usuario) !in before;
    }
  }

  /** After an upsert the article's reactions are the old ones plus the caller's,
      and every other article's are as they were. */
  lemma UpsertAddsKey(reacciones: ReactionTable, noticia: nat, usuario: nat, tipo: string)
    ensures ReactionsTo(Upsert(reacciones, noticia, usuario, tipo), noticia) ==
            ReactionsTo(reacciones, noticia) + {(noticia, usuario)}
    ensures forall m :: m != noticia ==> ReactionsTo(Upsert(reacciones, noticia, usuario, tipo), m) == ReactionsTo(reacciones, m)
  {
  }

  /** An upsert moves the user's reaction to the kind `tipo`: that kind gains the
      user, the kind they had before (if different) loses them, and no other kind
      changes. */
  lemma UpsertKinds(reacciones: ReactionTable, noticia: nat, usuario: nat, tipo: string, otro: string)
    ensures ReactorsOfKind(Upsert(reacciones, noticia, usuario, tipo), noticia, tipo) ==
            ReactorsOfKind(reacciones, noticia, tipo) + {(noticia, usuario)}
    ensures otro != tipo ==>
            ReactorsOfKind(Upsert(reacciones, noticia, usuario, tipo), noticia, otro) ==
            ReactorsOfKind(reacciones, noticia, otro) - {(noticia, usuario)}
  {
  }

  /** A withdrawal removes the user's reaction to the article, if any, and nothing
      else. */
  lemma WithdrawReactions(reacciones: ReactionTable, noticia: nat, usuario: nat)
    ensures |ReactionsTo(Withdraw(reacciones, noticia, usuario), noticia)| ==
            |ReactionsTo(reacciones, noticia)| - (if (noticia, usuario) in reacciones then 1 else 0)
    ensures forall m :: m != noticia ==> ReactionsTo(Withdraw(reacciones, noticia, usuario), m) == ReactionsTo(reacciones, m)
    ensures forall tipo ::
              ReactorsOfKind(Withdraw(reacciones, noticia, usuario), noticia, tipo) ==
              ReactorsOfKind(reacciones, noticia, tipo) - {(noticia, usuario)}
  {
    var after := ReactionsTo(Withdraw(reacciones, noticia, usuario), noticia);
    var before := ReactionsTo(reacciones, noticia);
    if (noticia, usuario) in reacciones {
      assert after == before - {(noticia, usuario)};
      SizeWithout(before, (noticia, usuario));
    } else {
      assert after == before;
    }
  }

  /** The request method. */
  datatype Verb = Get | Post | Delete

  /** The answer: a status code, and for a read the counts. */
  datatype Answer = Answer(status: int, conteo: Option<Conteo>)

  /** The `ReaccionNoticia` table. */
  class ReactionStore {
    var reacciones: ReactionTable

    constructor ()
      ensures reacciones == map[]
    {
      reacciones := map[];
    }

    /** `reacciones_noticia(request, id)`: an unknown article gives 404; GET returns
        the counts; otherwise an anonymous caller gets 401; POST without a (truthy)
        `tipo_reaccion` gives 400, else upserts the caller's reaction and answers 201
        when it is new and 200 when it replaces one; DELETE withdraws the caller's
        reaction and answers 204. Only POST and DELETE change the table, and only at
        the caller's key. */
    method Reacciones(noticias: set<nat>, id: nat, verb: Verb, usuario: Option<nat>, tipo: Option<string>)
      returns (answer: Answer)
      modifies this
      ensures id !in noticias ==> answer == Answer(HTTP_404_NOT_FOUND, None)
      ensures id in noticias && verb == Get ==>
        answer == Answer(HTTP_200_OK, Some(GetConteoReacciones(reacciones, id)))
      ensures id in noticias && verb != Get && usuario.None? ==> answer == Answer(HTTP_401_UNAUTHORIZED, None)
      ensures id in noticias && verb == Post && usuario.Some? && (tipo.None? || tipo.value == "") ==>
        answer == Answer(HTTP_400_BAD_REQUEST, None)
      ensures id in noticias && verb == Post && usuario.Some? && tipo.Some? && tipo.value != "" ==>
        && reacciones == Upsert(old(reacciones), id, usuario.value, tipo.value)
        && answer == Answer(if (id, usuario.value) in old(reacciones) then HTTP_200_OK else HTTP_201_CREATED, None)
      ensures id in noticias && verb == Delete && usuario.Some? ==>
        reacciones == Withdraw(old(reacciones), id, usuario.value) && answer == Answer(HTTP_204_NO_CONTENT, None)
      ensures answer.status !in {HTTP_200_OK, HTTP_201_CREATED, HTTP_204_NO_CONTENT} || verb == Get ==>
        reacciones == old(reacciones)
    {
      if id !in noticias {
        return Answer(HTTP_404_NOT_FOUND, None);
      }
      if verb == Get {
        return Answer(HTTP_200_OK, Some(GetConteoReacciones(reacciones, id)));
      }
      if usuario.None? {
        return Answer(HTTP_401_UNAUTHORIZED, None);
      }
      var user := usuario.value;
      if verb == Post {
        if tipo.None? || tipo.value == "" {
          return Answer(HTTP_400_BAD_REQUEST, None);
        }
        var created := (id, user) !in reacciones;
        reacciones := Upsert(reacciones, id, user, tipo.value);
        answer := Answer(if created then HTTP_201_CREATED else HTTP_200_OK, None);
      } else {
        reacciones := Withdraw(reacciones, id, user);
        answer := Answer(HTTP_204_NO_CONTENT, None);
      }
    }
  }
}
