/** Properties that relate several handlers, or a handler to the id
    discipline the application would like to keep. */
module Propiedades {
  import opened Secuencias
  import opened Reservas
  import opened Consultas
  import opened Controlador

  /** Once a record is created with an id no stored record carries, and the
      body does not bring its own `id`, looking that id up finds it. */
  lemma BuscarTrasCrear(rs: seq<Reserva>, nuevoId: string, cuerpo: Campos)
    requires forall j :: 0 <= j < |rs| ==> !TieneId(rs[j], nuevoId)
    requires "id" !in cuerpo
    ensures BuscarPorId(rs + [NuevaReserva(nuevoId, cuerpo)], nuevoId) == Some(NuevaReserva(nuevoId, cuerpo))
  {
    var nueva := NuevaReserva(nuevoId, cuerpo);
    var s := rs + [nueva];
    assert TieneId(s[|rs|], nuevoId);
    var i := IndicePorId(s, nuevoId);
    assert i.Some?;
  }

  /** Merging an empty body gives back the same record. */
  lemma FusionarVacio(r: Reserva)
    ensures Fusionar(r, map[]) == r
  {
    assert Fusionar(r, map[]).campos == r.campos;
  }

  /** An update with an empty body leaves the collection as it was. */
  lemma ActualizarVacio(rs: seq<Reserva>, id: string)
    requires IndicePorId(rs, id).Some?
    ensures rs[IndicePorId(rs, id).value := Fusionar(rs[IndicePorId(rs, id).value], map[])] == rs
  {
    FusionarVacio(rs[IndicePorId(rs, id).value]);
  }

  /** An update whose body has no `id` keeps the record's id, whether it had
      one or not. */
  lemma FusionarConservaId(r: Reserva, cuerpo: Campos)
    requires "id" !in cuerpo
    ensures "id" in Fusionar(r, cuerpo).campos <==> "id" in r.campos
    ensures "id" in r.campos ==> Fusionar(r, cuerpo).campos["id"] == r.campos["id"]
  {
  }

  /** A body that carries `id` replaces the stored id on update. */
  lemma FusionarReemplazaId(r: Reserva, cuerpo: Campos, id: string)
    requires "id" in cuerpo && cuerpo["id"] == Texto(id)
    ensures TieneId(Fusionar(r, cuerpo), id)
  {
  }

  /** No two records carry the same `id` value. */
  ghost predicate IdsUnicos(rs: seq<Reserva>) {
    forall i, j :: 0 <= i < j < |rs| && "id" in rs[i].campos && "id" in rs[j].campos ==>
      rs[i].campos["id"] != rs[j].campos["id"]
  }

  /** Creating with an unused id and a body without `id` keeps ids unique. */
  lemma CrearConservaIdsUnicos(rs: seq<Reserva>, nuevoId: string, cuerpo: Campos)
    requires IdsUnicos(rs)
    requires forall j :: 0 <= j < |rs| ==> !TieneId(rs[j], nuevoId)
    requires "id" !in cuerpo
    ensures IdsUnicos(rs + [NuevaReserva(nuevoId, cuerpo)])
  {
    var s := rs + [NuevaReserva(nuevoId, cuerpo)];
    forall i, j | 0 <= i < j < |s| && "id" in s[i].campos && "id" in s[j].campos
      ensures s[i].campos["id"] != s[j].campos["id"]
    {
      assert s[i] == rs[i];
      if j < |rs| {
        assert s[j] == rs[j];
      }
    }
  }

  /** Updating with a body without `id` keeps ids unique. */
  lemma ActualizarConservaIdsUnicos(rs: seq<Reserva>, i: nat, cuerpo: Campos)
    requires i < |rs|
    requires IdsUnicos(rs)
    requires "id" !in cuerpo
    ensures IdsUnicos(rs[i := Fusionar(rs[i], cuerpo)])
  {
    var s := rs[i := Fusionar(rs[i], cuerpo)];
    forall k, l | 0 <= k < l < |s| && "id" in s[k].campos && "id" in s[l].campos
      ensures s[k].campos["id"] != s[l].campos["id"]
    {
      assert "id" in rs[k].campos && s[k].campos["id"] == rs[k].campos["id"];
      assert "id" in rs[l].campos && s[l].campos["id"] == rs[l].campos["id"];
    }
  }

  /** Deleting keeps ids unique: what survives is a sub-sequence. */
  lemma EliminarConservaIdsUnicos(rs: seq<Reserva>, id: string)
    requires IdsUnicos(rs)
    ensures IdsUnicos(SinId(rs, id))
  {
    var f := SinId(rs, id);
    var idx := FiltrarPreservaOrden(rs, Acepta(IdDistinto(id)));
    forall k, l | 0 <= k < l < |f| && "id" in f[k].campos && "id" in f[l].campos
      ensures f[k].campos["id"] != f[l].campos["id"]
    {
      assert f[k] == rs[idx[k]] && f[l] == rs[idx[l]] && idx[k] < idx[l];
    }
  }

  /** The controller does not keep ids unique by itself: a body that brings
      an id already in use is stored as it is. */
  lemma CrearPuedeDuplicarId()
    ensures IdsUnicos([Reserva(map["id" := Texto("a")])])
    ensures !IdsUnicos([Reserva(map["id" := Texto("a")]), NuevaReserva("b", map["id" := Texto("a")])])
  {
    var s := [Reserva(map["id" := Texto("a")]), NuevaReserva("b", map["id" := Texto("a")])];
    assert s[0].campos["id"] == s[1].campos["id"];
  }

  /** Create a reservation, read it back, delete it, read it again. */
  method EscenarioCrearLeerEliminar() {
    var almacen := new Almacen([]);
    var creada := almacen.CrearReserva("r1", map["hotel" := Texto("Plaza")]);
    var r := creada.reserva;
    assert TieneId(r, "r1");
    assert almacen.reservas == [r];

    var leida := almacen.ObtenerReserva("r1");
    assert TieneId(almacen.reservas[0], "r1");
    assert leida == Ok(r);

    var borrada := almacen.EliminarReserva("r1");
    BuscarTrasEliminar([r], "r1");
    leida := almacen.ObtenerReserva("r1");
    assert leida == NoEncontrada;
  }

  /** The two filters on a store holding one reservation at hotel "Plaza"
      for two guests. */
  method EscenarioFiltros() {
    var r := Reserva(map["id" := Texto("r1"), "hotel" := Texto("Plaza"), "num_huespedes" := Entero(2)]);
    var almacen := new Almacen([r]);

    var porHotel := almacen.FiltrarReservasPorHotel("PLAZA");
    assert Minusculas("PLAZA") == Minusculas("Plaza") == "plaza";
    assert porHotel.reservas == [r];

    var otroHotel := almacen.FiltrarReservasPorHotel("Sol");
    assert Minusculas("Sol") == "sol" != Minusculas("Plaza");
    assert otroHotel == Lista([]);

    var dos := almacen.FiltrarReservasPorNumHuespedes(Some(2));
    assert dos.reservas == [r];

    var tres := almacen.FiltrarReservasPorNumHuespedes(Some(3));
    assert tres == NoEncontrada;
  }
}
