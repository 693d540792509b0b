/** The read-side computations of the reservation controller: the lookup by
    id, the position lookup used by the update, the collection that the
    delete writes back, and the two filters. Each is one of the array
    operations of `Secuencias` applied to one of the callbacks the handlers
    pass. */
module Consultas {
  import opened Secuencias
  import opened Reservas

  /** The callbacks the handlers hand to `filter`. */
  datatype Criterio =
    | IdDistinto(id: string)          // `r => r.id !== id`
    | MismoHotel(hotel: string)       // `r => r.hotel.toLowerCase() === hotel.toLowerCase()`
    | NumHuespedes(n: Option<int>)    // `r => r.num_huespedes === parseInt(...)`, `None` for NaN

  /** Whether the callback for `c` accepts `r`. The hotel callback accepts
      exactly the records whose hotel is a string that differs from the
      query at most in ASCII case. */
  predicate Cumple(c: Criterio, r: Reserva)
    ensures c.MismoHotel? ==>
              (Cumple(c, r) <==> HotelEsTexto(r) && IgualSalvoMayusculas(r.campos["hotel"].s, c.hotel))
  {
    match c
    case IdDistinto(id) => !TieneId(r, id)
    case MismoHotel(h) =>
      HotelEsTexto(r) &&
      (MinusculasIguales(r.campos["hotel"].s, h); Minusculas(r.campos["hotel"].s) == Minusculas(h))
    case NumHuespedes(n) =>
      n.Some? && "num_huespedes" in r.campos && r.campos["num_huespedes"] == Entero(n.value)
  }

  /** The callback value for a criterion. */
  function Acepta(c: Criterio): Reserva -> bool {
    r => Cumple(c, r)
  }

  /** The callback `r => r.id === id` of `find` and `findIndex`. */
  function ConId(id: string): Reserva -> bool {
    r => TieneId(r, id)
  }

  /** `reservas.find(r => r.id === id)`: nothing exactly when no record
      carries `id`, otherwise the record at the first position that does. */
  function BuscarPorId(rs: seq<Reserva>, id: string): (r: Option<Reserva>)
    ensures r.None? <==> forall j :: 0 <= j < |rs| ==> !TieneId(rs[j], id)
    ensures r.Some? ==> TieneId(r.value, id)
    ensures r.Some? ==> exists i :: 0 <= i < |rs| && rs[i] == r.value &&
                                    forall j :: 0 <= j < i ==> !TieneId(rs[j], id)
  {
    BuscarPrimero(rs, ConId(id));
    Buscar(rs, ConId(id))
  }

  /** `reservas.findIndex(r => r.id === id)`: nothing (`-1`) exactly when no
      record carries `id`, otherwise the first position that does. */
  function IndicePorId(rs: seq<Reserva>, id: string): (r: Option<nat>)
    ensures r.None? <==> forall j :: 0 <= j < |rs| ==> !TieneId(rs[j], id)
    ensures r.Some? ==> r.value < |rs| && TieneId(rs[r.value], id)
    ensures r.Some? ==> forall j :: 0 <= j < r.value ==> !TieneId(rs[j], id)
  {
    PrimerIndice(rs, ConId(id))
  }

  /** `reservas.filter(r => r.id !== id)`: no survivor carries `id`. */
  function SinId(rs: seq<Reserva>, id: string): (f: seq<Reserva>)
    ensures |f| <= |rs|
    ensures forall k :: 0 <= k < |f| ==> !TieneId(f[k], id)
  {
    Filtrar(rs, Acepta(IdDistinto(id)))
  }

  /** The hotel filter: the whole collection when the query is empty,
      otherwise records whose hotel equals the query up to ASCII case. */
  function PorHotel(rs: seq<Reserva>, hotel: string): (f: seq<Reserva>)
    requires hotel != "" ==> forall j :: 0 <= j < |rs| ==> HotelEsTexto(rs[j])
    ensures |f| <= |rs|
    ensures hotel == "" ==> f == rs
    ensures hotel != "" ==> forall k :: 0 <= k < |f| ==>
              HotelEsTexto(f[k]) && IgualSalvoMayusculas(f[k].campos["hotel"].s, hotel)
  {
    if hotel == "" then rs else Filtrar(rs, Acepta(MismoHotel(hotel)))
  }

  /** The guest-count filter: every record kept has `num_huespedes` equal to
      the parsed count, and a count that does not parse keeps nothing. */
  function PorNumHuespedes(rs: seq<Reserva>, n: Option<int>): (f: seq<Reserva>)
    ensures |f| <= |rs|
    ensures forall k :: 0 <= k < |f| ==>
              n.Some? && "num_huespedes" in f[k].campos && f[k].campos["num_huespedes"] == Entero(n.value)
    ensures n.None? ==> f == []
  {
    var f := Filtrar(rs, Acepta(NumHuespedes(n)));
    assert forall k :: 0 <= k < |f| ==> Acepta(NumHuespedes(n))(f[k]);
    assert n.None? && f != [] ==> Cumple(NumHuespedes(n), f[0]);
    f
  }

  /** After the delete no record carries `id`, every record that did not carry
      it survives, and nothing else is added. */
  lemma SinIdContenido(rs: seq<Reserva>, id: string)
    ensures forall k :: 0 <= k < |SinId(rs, id)| ==>
              SinId(rs, id)[k] in rs && !TieneId(SinId(rs, id)[k], id)
    ensures forall j :: 0 <= j < |rs| && !TieneId(rs[j], id) ==> rs[j] in SinId(rs, id)
  {
    FiltrarPertenencia(rs, Acepta(IdDistinto(id)));
  }

  /** A deleted id cannot be found any more. */
  lemma BuscarTrasEliminar(rs: seq<Reserva>, id: string)
    ensures BuscarPorId(SinId(rs, id), id) == None
  {
    SinIdContenido(rs, id);
  }

  /** Deleting an id a second time changes nothing. */
  lemma EliminarIdempotente(rs: seq<Reserva>, id: string)
    ensures SinId(SinId(rs, id), id) == SinId(rs, id)
  {
    FiltrarIdempotente(rs, Acepta(IdDistinto(id)));
  }

  /** Deleting an id that no record carries leaves the collection as it is;
      the handler answers 204 all the same. */
  lemma EliminarAusente(rs: seq<Reserva>, id: string)
    requires BuscarPorId(rs, id) == None
    ensures SinId(rs, id) == rs
  {
    FiltrarSinEfecto(rs, Acepta(IdDistinto(id)));
  }

  /** Two queries that differ only in the case of ASCII letters select the
      same records. */
  lemma PorHotelIgnoraMayusculas(rs: seq<Reserva>, h1: string, h2: string)
    requires h1 != "" ==> forall j :: 0 <= j < |rs| ==> HotelEsTexto(rs[j])
    requires IgualSalvoMayusculas(h1, h2)
    ensures PorHotel(rs, h1) == PorHotel(rs, h2)
  {
    if h1 != "" {
      MinusculasIguales(h1, h2);
      FiltrarEquivalentes(rs, Acepta(MismoHotel(h1)), Acepta(MismoHotel(h2)));
    }
  }

  /** With a non-empty query the hotel filter keeps exactly the records whose
      hotel matches up to case, in their original order. */
  lemma PorHotelSelecciona(rs: seq<Reserva>, hotel: string) returns (idx: seq<nat>)
    requires hotel != ""
    requires forall j :: 0 <= j < |rs| ==> HotelEsTexto(rs[j])
    ensures |PorHotel(rs, hotel)| <= |rs|
    ensures Selecciona(idx, PorHotel(rs, hotel), rs, Acepta(MismoHotel(hotel)))
  {
    idx := FiltrarPreservaOrden(rs, Acepta(MismoHotel(hotel)));
  }

  /** The delete keeps exactly the records that do not carry `id`, in their
      original order. */
  lemma SinIdSelecciona(rs: seq<Reserva>, id: string) returns (idx: seq<nat>)
    ensures Selecciona(idx, SinId(rs, id), rs, Acepta(IdDistinto(id)))
  {
    idx := FiltrarPreservaOrden(rs, Acepta(IdDistinto(id)));
  }

  /** The guest-count filter keeps exactly the records with that integer
      guest count, in their original order. */
  lemma PorNumHuespedesSelecciona(rs: seq<Reserva>, n: Option<int>) returns (idx: seq<nat>)
    ensures Selecciona(idx, PorNumHuespedes(rs, n), rs, Acepta(NumHuespedes(n)))
  {
    idx := FiltrarPreservaOrden(rs, Acepta(NumHuespedes(n)));
  }

  /** The guest-count filter is empty exactly when no record carries that
      integer guest count. */
  lemma PorNumHuespedesVacio(rs: seq<Reserva>, n: Option<int>)
    ensures PorNumHuespedes(rs, n) == [] <==>
              forall j :: 0 <= j < |rs| ==> !Cumple(NumHuespedes(n), rs[j])
  {
    var f := PorNumHuespedes(rs, n);
    FiltrarPertenencia(rs, Acepta(NumHuespedes(n)));
    if f != [] {
      assert f[0] in rs && Cumple(NumHuespedes(n), f[0]);
    }
  }

  /** A guest count that does not parse (`NaN`) matches no record. */
  lemma PorNumHuespedesNaN(rs: seq<Reserva>)
    ensures PorNumHuespedes(rs, None) == []
  {
    PorNumHuespedesVacio(rs, None);
  }
}
