/** The array operations the controller relies on (`filter`, `findIndex`,
    `find`), over an arbitrary element type and an arbitrary callback. Each
    one walks the array by position, front to back, as the JavaScript
    built-ins do. */
module Secuencias {

  datatype Option<+T> = None | Some(value: T)

  /** `s.filter(p)`; with `i` given, what it collects from position `i` on. */
  function Filtrar<T>(s: seq<T>, p: T -> bool, i: nat := 0): (f: seq<T>)
    requires i <= |s|
    ensures |f| <= |s| - i
    ensures forall k :: 0 <= k < |f| ==> p(f[k])
    decreases |s| - i
  {
    if i == |s| then []
    else if p(s[i]) then [s[i]] + Filtrar(s, p, i + 1)
    else Filtrar(s, p, i + 1)
  }

  /** `f` is made of the elements of `s` at the positions `idx`. */
  ghost predicate Apunta<T>(idx: seq<nat>, f: seq<T>, s: seq<T>) {
    && |idx| == |f|
    && forall k :: 0 <= k < |idx| ==> idx[k] < |s| && f[k] == s[idx[k]]
  }

  ghost predicate Creciente(idx: seq<nat>) {
    forall k, l :: 0 <= k < l < |idx| ==> idx[k] < idx[l]
  }

  /** `idx` lists exactly the positions from `i` on whose element `p` accepts. */
  ghost predicate Exhaustivo<T>(idx: seq<nat>, s: seq<T>, p: T -> bool, i: nat) {
    && (forall k :: 0 <= k < |idx| ==> i <= idx[k])
    && (forall j :: i <= j < |s| ==> (p(s[j]) <==> j in idx))
  }

  /** `idx` lists, in increasing order, the positions of `s` that `f` is made
      of, and those are exactly the positions whose element `p` accepts. */
  ghost predicate Selecciona<T>(idx: seq<nat>, f: seq<T>, s: seq<T>, p: T -> bool) {
    Apunta(idx, f, s) && Creciente(idx) && Exhaustivo(idx, s, p, 0)
  }

  /** An accepted element at `i` goes in front of what is kept after it. */
  lemma Anteponer<T>(s: seq<T>, p: T -> bool, i: nat, resto: seq<nat>, fr: seq<T>)
    requires i < |s| && p(s[i])
    requires Apunta(resto, fr, s) && Creciente(resto) && Exhaustivo(resto, s, p, i + 1)
    ensures Apunta([i] + resto, [s[i]] + fr, s)
    ensures Creciente([i] + resto)
    ensures Exhaustivo([i] + resto, s, p, i)
  {
    var idx, f := [i] + resto, [s[i]] + fr;
    forall k | 1 <= k < |idx| ensures idx[k] == resto[k - 1] && f[k] == fr[k - 1] { }
    forall k, l | 0 <= k < l < |idx| ensures idx[k] < idx[l] {
      if k > 0 {
        assert resto[k - 1] < resto[l - 1];
      }
    }
    forall j | i <= j < |s| ensures p(s[j]) <==> j in idx {
      if j > i {
        assert j in idx <==> j in resto;
      }
    }
  }

  /** A rejected element at `i` adds no position. */
  lemma Saltar<T>(s: seq<T>, p: T -> bool, i: nat, resto: seq<nat>)
    requires i < |s| && !p(s[i])
    requires Exhaustivo(resto, s, p, i + 1)
    ensures Exhaustivo(resto, s, p, i)
  {
    assert i !in resto;
  }

  /** The positions that `Filtrar(s, p, i)` is made of. */
  lemma {:induction false} SeleccionDesde<T>(s: seq<T>, p: T -> bool, i: nat) returns (idx: seq<nat>)
    requires i <= |s|
    ensures Apunta(idx, Filtrar(s, p, i), s)
    ensures Creciente(idx)
    ensures Exhaustivo(idx, s, p, i)
    decreases |s| - i
  {
    if i == |s| {
      idx := [];
    } else {
      var resto := SeleccionDesde(s, p, i + 1);
      if p(s[i]) {
        assert Filtrar(s, p, i) == [s[i]] + Filtrar(s, p, i + 1);
        Anteponer(s, p, i, resto, Filtrar(s, p, i + 1));
        idx := [i] + resto;
      } else {
        Saltar(s, p, i, resto);
        idx := resto;
      }
    }
  }

  /** The filter keeps every accepted element, drops every other one, and
      does not reorder the survivors: the result is the sub-sequence of `s`
      at the increasing positions `idx`, which are all the accepted positions. */
  lemma FiltrarPreservaOrden<T>(s: seq<T>, p: T -> bool) returns (idx: seq<nat>)
    ensures Selecciona(idx, Filtrar(s, p), s, p)
  {
    idx := SeleccionDesde(s, p, 0);
  }

  /** An element is in the filter result exactly when it is in the input and
      the callback accepts it. */
  lemma FiltrarPertenencia<T>(s: seq<T>, p: T -> bool)
    ensures forall k :: 0 <= k < |Filtrar(s, p)| ==> Filtrar(s, p)[k] in s && p(Filtrar(s, p)[k])
    ensures forall j :: 0 <= j < |s| && p(s[j]) ==> s[j] in Filtrar(s, p)
  {
    var f := Filtrar(s, p);
    var idx := FiltrarPreservaOrden(s, p);
    forall k | 0 <= k < |f| ensures f[k] in s && p(f[k]) {
      assert idx[k] in idx;
    }
    forall j | 0 <= j < |s| && p(s[j]) ensures s[j] in f {
      var k :| 0 <= k < |idx| && idx[k] == j;
      assert f[k] == s[j];
    }
  }

  /** A callback that accepts every element keeps everything from `i` on. */
  lemma {:induction false} FiltrarDesdeSinEfecto<T>(s: seq<T>, p: T -> bool, i: nat)
    requires i <= |s|
    requires forall j :: 0 <= j < |s| ==> p(s[j])
    ensures Filtrar(s, p, i) == s[i..]
    decreases |s| - i
  {
    if i < |s| {
      FiltrarDesdeSinEfecto(s, p, i + 1);
      assert s[i..] == [s[i]] + s[i + 1..];
    }
  }

  /** A callback that accepts every element leaves the input as it is. */
  lemma FiltrarSinEfecto<T>(s: seq<T>, p: T -> bool)
    requires forall j :: 0 <= j < |s| ==> p(s[j])
    ensures Filtrar(s, p) == s
  {
    FiltrarDesdeSinEfecto(s, p, 0);
  }

  /** Filtering with the same callback a second time removes nothing more. */
  lemma FiltrarIdempotente<T>(s: seq<T>, p: T -> bool)
    ensures Filtrar(Filtrar(s, p), p) == Filtrar(s, p)
  {
    FiltrarPertenencia(s, p);
    FiltrarSinEfecto(Filtrar(s, p), p);
  }

  lemma {:induction false} FiltrarDesdeEquivalentes<T>(s: seq<T>, p: T -> bool, q: T -> bool, i: nat)
    requires i <= |s|
    requires forall j :: 0 <= j < |s| ==> p(s[j]) == q(s[j])
    ensures Filtrar(s, p, i) == Filtrar(s, q, i)
    decreases |s| - i
  {
    if i < |s| {
      FiltrarDesdeEquivalentes(s, p, q, i + 1);
    }
  }

  /** Two callbacks that agree on every element of the input select the
      same sub-sequence. */
  lemma FiltrarEquivalentes<T>(s: seq<T>, p: T -> bool, q: T -> bool)
    requires forall j :: 0 <= j < |s| ==> p(s[j]) == q(s[j])
    ensures Filtrar(s, p) == Filtrar(s, q)
  {
    FiltrarDesdeEquivalentes(s, p, q, 0);
  }

  /** `s.findIndex(p)`, with `None` for the `-1` it returns when nothing
      matches; with `i` given, the search starts at position `i`. */
  function PrimerIndice<T>(s: seq<T>, p: T -> bool, i: nat := 0): (r: Option<nat>)
    requires i <= |s|
    ensures r.None? ==> forall j :: i <= j < |s| ==> !p(s[j])
    ensures r.Some? ==> i <= r.value < |s| && p(s[r.value])
    ensures r.Some? ==> forall j :: i <= j < r.value ==> !p(s[j])
    decreases |s| - i
  {
    if i == |s| then None
    else if p(s[i]) then Some(i)
    else PrimerIndice(s, p, i + 1)
  }

  /** `s.find(p)`: the first element the callback accepts, if any; with `i`
      given, the search starts at position `i`. */
  function Buscar<T>(s: seq<T>, p: T -> bool, i: nat := 0): (r: Option<T>)
    requires i <= |s|
    ensures r.None? <==> forall j :: i <= j < |s| ==> !p(s[j])
    ensures r.Some? ==> p(r.value)
    decreases |s| - i
  {
    if i == |s| then None
    else if p(s[i]) then Some(s[i])
    else Buscar(s, p, i + 1)
  }

  /** `find` returns the element at the position `findIndex` returns, and
      both fail together. */
  lemma {:induction false} BuscarDesdeEsIndice<T>(s: seq<T>, p: T -> bool, i: nat)
    requires i <= |s|
    ensures Buscar(s, p, i).None? <==> PrimerIndice(s, p, i).None?
    ensures PrimerIndice(s, p, i).Some? ==> Buscar(s, p, i) == Some(s[PrimerIndice(s, p, i).value])
    decreases |s| - i
  {
    if i < |s| && !p(s[i]) {
      BuscarDesdeEsIndice(s, p, i + 1);
    }
  }

  lemma BuscarEsIndice<T>(s: seq<T>, p: T -> bool)
    ensures Buscar(s, p).None? <==> PrimerIndice(s, p).None?
    ensures PrimerIndice(s, p).Some? ==> Buscar(s, p) == Some(s[PrimerIndice(s, p).value])
  {
    BuscarDesdeEsIndice(s, p, 0);
  }

  /** The first element the callback accepts sits at a position before which
      the callback accepts nothing. */
  lemma BuscarPrimero<T>(s: seq<T>, p: T -> bool)
    ensures Buscar(s, p).Some? ==>
              exists i :: 0 <= i < |s| && s[i] == Buscar(s, p).value &&
                          forall j :: 0 <= j < i ==> !p(s[j])
  {
    BuscarEsIndice(s, p);
    if Buscar(s, p).Some? {
      var i := PrimerIndice(s, p).value;
      assert s[i] == Buscar(s, p).value;
    }
  }
}
