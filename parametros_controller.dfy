/** The list maintenance of the parameters document: the languages
    (`idiomas`) and countries (`paises`) offered in forms. There is at most
    one parameters document; each handler adds to, renames in or deletes
    from one of its two lists and saves it. The database lookup and save
    and the HTTP replies are left out: the document is an object whose
    fields the handlers update, and each handler returns its status code. */
module ParametrosController {
  import opened Wrappers
  import opened JsArrays

  // ---------------------------------------------------------------------------
  // Status codes and rejections
  // ---------------------------------------------------------------------------

  const Created: nat := 201
  const Ok: nat := 200

  /** Why a handler rejects a request. */
  datatype ListError =
    | NameRequired    // `!nombre`
    | AlreadyListed   // `includes(nombre)` before a push
    | ListRequired    // not a non-empty array
    | NamesRequired   // `!oldName || !newName`
    | NotListed       // no document, or the name is not in the list

  function ErrorStatus(e: ListError): nat {
    if e == NotListed then 404 else 400
  }

  /** A list in which every name occurs once. */
  predicate NoDuplicates(s: seq<string>) {
    forall i, j :: 0 <= i < j < |s| ==> s[i] != s[j]
  }

  // ---------------------------------------------------------------------------
  // The list updates, shared by both lists
  // ---------------------------------------------------------------------------

  /** `addIdioma`/`addPais`: a name is required and must not be listed yet;
      it is then pushed at the end. */
  function AddName(list: seq<string>, nombre: string): (r: Result<seq<string>, ListError>)
    ensures r.Success? <==> nombre != "" && nombre !in list
    ensures r.Failure? ==> r.error == if nombre == "" then NameRequired else AlreadyListed
    ensures r.Success? ==> |r.value| == |list| + 1 && r.value[..|list|] == list && r.value[|list|] == nombre
  {
    if nombre == "" then Failure(NameRequired)
    else if nombre in list then Failure(AlreadyListed)
    else Success(list + [nombre])
  }

  /** After an add the name is listed, next to exactly what was there; a list
      without repetitions stays without them. */
  lemma AddNameMeaning(list: seq<string>, nombre: string)
    requires AddName(list, nombre).Success?
    ensures var r := AddName(list, nombre).value;
            (forall x :: x in r <==> x in list || x == nombre)
            && (NoDuplicates(list) ==> NoDuplicates(r))
  {
    var r := AddName(list, nombre).value;
    assert r == list + [nombre];
  }

  /** The test `!list.includes(x)` of `addMultiples…`. */
  function NotIn(list: seq<string>): string -> bool {
    x => x !in list
  }

  /** `addMultiplesIdiomas`/`addMultiplesPaises`: the input must be a
      non-empty array; the inputs that are not in the stored list are then
      pushed, in input order. */
  function AddNames(list: seq<string>, inputs: Option<seq<string>>): (r: Result<seq<string>, ListError>)
    ensures r.Failure? <==> inputs.None? || inputs.value == []
    ensures r.Failure? ==> r.error == ListRequired
    ensures r.Success? ==> |list| <= |r.value| <= |list| + |inputs.value| && r.value[..|list|] == list
  {
    match inputs
    case None => Failure(ListRequired)
    case Some(xs) => if xs == [] then Failure(ListRequired) else Success(list + Filter(xs, NotIn(list)))
  }

  /** What the bulk add appends: exactly the inputs not stored before, in
      input order; every input is listed afterwards. */
  lemma AddNamesMeaning(list: seq<string>, xs: seq<string>)
    requires xs != []
    ensures var r := AddNames(list, Some(xs)).value;
            && r[|list|..] == Filter(xs, NotIn(list))
            && (forall x :: x in r[|list|..] <==> x in xs && x !in list)
            && (forall x :: x in r <==> x in list || x in xs)
  {
    var r := AddNames(list, Some(xs)).value;
    assert r == list + Filter(xs, NotIn(list));
    assert r[|list|..] == Filter(xs, NotIn(list));
    forall x
      ensures x in r[|list|..] <==> x in xs && x !in list
    {
      FilterMembership(xs, NotIn(list), x);
    }
  }

  /** With no stored document the whole input becomes the list
      (`new Parametros({ idiomas })`), which is what the filtered push gives
      on an empty list. */
  lemma AddNamesToEmpty(xs: seq<string>)
    requires xs != []
    ensures AddNames([], Some(xs)) == Success(xs)
  {
    FilterAllPass(xs, NotIn([]));
  }

  /** The inputs are checked against the stored list only, not against each
      other: a name given twice is pushed twice. */
  lemma AddNamesKeepsInputRepeats(list: seq<string>, x: string)
    requires x !in list
    ensures AddNames(list, Some([x, x])) == Success(list + [x, x])
    ensures !NoDuplicates(AddNames(list, Some([x, x])).value)
  {
    var r := list + [x, x];
    assert Filter([x, x], NotIn(list)) == [x, x];
    assert r[|list|] == r[|list| + 1];
  }

  /** The renaming `idioma === oldName ? newName : idioma`. */
  function Rename(oldName: string, newName: string): string -> string {
    x => if x == oldName then newName else x
  }

  /** `updateIdioma`/`updatePais`: both names are required and `oldName` must
      be listed; every occurrence of it is then replaced. */
  function ReplaceName(list: seq<string>, oldName: string, newName: string): (r: Result<seq<string>, ListError>)
    ensures r.Success? <==> oldName != "" && newName != "" && oldName in list
    ensures r.Failure? ==> r.error == if oldName == "" || newName == "" then NamesRequired else NotListed
  {
    if oldName == "" || newName == "" then Failure(NamesRequired)
    else if oldName !in list then Failure(NotListed)
    else Success(Map(list, Rename(oldName, newName)))
  }

  /** A rename keeps the length and every other position, puts the new name
      where the old one was, and leaves no occurrence of the old name. */
  lemma ReplaceNameMeaning(list: seq<string>, oldName: string, newName: string)
    requires ReplaceName(list, oldName, newName).Success?
    ensures var r := ReplaceName(list, oldName, newName).value;
            && |r| == |list|
            && (forall i :: 0 <= i < |list| && list[i] != oldName ==> r[i] == list[i])
            && (forall i :: 0 <= i < |list| && list[i] == oldName ==> r[i] == newName)
            && newName in r
            && (oldName != newName ==> oldName !in r)
  {
    var r := ReplaceName(list, oldName, newName).value;
    var k :| 0 <= k < |list| && list[k] == oldName;
    assert r[k] == newName;
  }

  /** The test `idioma !== nombre` of the deletes. */
  function Except(nombre: string): string -> bool {
    x => x != nombre
  }

  /** `deleteIdioma`/`deletePais`: a name is required and must be listed; every
      occurrence of it is then removed. */
  function RemoveName(list: seq<string>, nombre: string): (r: Result<seq<string>, ListError>)
    ensures r.Success? <==> nombre != "" && nombre in list
    ensures r.Failure? ==> r.error == if nombre == "" then NameRequired else NotListed
    ensures r.Success? ==> |r.value| < |list|
  {
    if nombre == "" then Failure(NameRequired)
    else if nombre !in list then Failure(NotListed)
    else
      var r := Filter(list, Except(nombre));
      FilterShrinks(list, Except(nombre), nombre);
      Success(r)
  }

  /** A delete leaves no occurrence of the name, keeps every occurrence of
      every other name, and keeps the order of what remains: deleting from a
      concatenation deletes from each part. */
  lemma RemoveNameMeaning(list: seq<string>, nombre: string)
    requires RemoveName(list, nombre).Success?
    ensures var r := RemoveName(list, nombre).value;
            && nombre !in r
            && (forall x :: x != nombre ==> multiset(r)[x] == multiset(list)[x])
            && (forall a, b :: list == a + b ==> r == Filter(a, Except(nombre)) + Filter(b, Except(nombre)))
  {
    var r := RemoveName(list, nombre).value;
    FilterMembership(list, Except(nombre), nombre);
    forall x | x != nombre
      ensures multiset(r)[x] == multiset(list)[x]
    {
      FilterCount(list, Except(nombre), x);
    }
    forall a, b | list == a + b
      ensures r == Filter(a, Except(nombre)) + Filter(b, Except(nombre))
    {
      FilterConcat(a, b, Except(nombre));
    }
  }

  /** Deleting from a list without repetitions leaves one without them. */
  lemma {:induction false} RemoveKeepsDistinct(list: seq<string>, nombre: string)
    requires NoDuplicates(list)
    ensures NoDuplicates(Filter(list, Except(nombre)))
    decreases |list|
  {
    if list != [] {
      var rest := Filter(list[1..], Except(nombre));
      assert NoDuplicates(list[1..]) by {
        forall i, j | 0 <= i < j < |list[1..]|
          ensures list[1..][i] != list[1..][j]
        {
          assert list[1..][i] == list[i + 1] && list[1..][j] == list[j + 1];
        }
      }
      RemoveKeepsDistinct(list[1..], nombre);
      FilterMembership(list[1..], Except(nombre), list[0]);
      assert list[0] !in list[1..];
    }
  }

  // ---------------------------------------------------------------------------
  // The parameters document and its handlers
  // ---------------------------------------------------------------------------

  /** The stored parameters: whether the document exists yet, and its two
      lists (`monedas`, which no handler touches, is left out). */
  class Parametros {
    var present: bool
    var idiomas: seq<string>
    var paises: seq<string>

    /** A document that does not exist holds no names. */
    ghost predicate Valid()
      reads this
    {
      !present ==> idiomas == [] && paises == []
    }

    /** No document stored yet. */
    constructor Absent()
      ensures Valid() && !present
    {
      present := false;
      idiomas := [];
      paises := [];
    }

    /** A stored document with the given lists. */
    constructor Stored(idiomas: seq<string>, paises: seq<string>)
      ensures Valid() && present && this.idiomas == idiomas && this.paises == paises
    {
      present := true;
      this.idiomas := idiomas;
      this.paises := paises;
    }

    /** `addIdioma` */
    method AddIdioma(nombre: string) returns (status: nat)
      requires Valid()
      modifies this
      ensures Valid() && paises == old(paises)
      ensures match AddName(old(idiomas), nombre)
              case Success(l) => status == Created && present && idiomas == l
              case Failure(e) => status == ErrorStatus(e) && present == old(present) && idiomas == old(idiomas)
    {
      if nombre == "" {
        return ErrorStatus(NameRequired);
      }
      if !present {
        present, idiomas := true, [nombre];
        return Created;
      }
      if nombre in idiomas {
        return ErrorStatus(AlreadyListed);
      }
      idiomas := idiomas + [nombre];
      return Created;
    }

    /** `addMultiplesIdiomas`; `inputs` is None when the body's `idiomas` is
        missing or not an array. */
    method AddMultiplesIdiomas(inputs: Option<seq<string>>) returns (status: nat)
      requires Valid()
      modifies this
      ensures Valid() && paises == old(paises)
      ensures match AddNames(old(idiomas), inputs)
              case Success(l) => status == Created && present && idiomas == l
              case Failure(e) => status == ErrorStatus(e) && present == old(present) && idiomas == old(idiomas)
    {
      if inputs.None? || inputs.value == [] {
        return ErrorStatus(ListRequired);
      }
      if !present {
        AddNamesToEmpty(inputs.value);
        present, idiomas := true, inputs.value;
        return Created;
      }
      idiomas := idiomas + Filter(inputs.value, NotIn(idiomas));
      return Created;
    }

    /** `updateIdioma` */
    method UpdateIdioma(oldName: string, newName: string) returns (status: nat)
      requires Valid()
      modifies this
      ensures Valid() && present == old(present) && paises == old(paises)
      ensures match ReplaceName(old(idiomas), oldName, newName)
              case Success(l) => status == Ok && idiomas == l
              case Failure(e) => status == ErrorStatus(e) && idiomas == old(idiomas)
    {
      if oldName == "" || newName == "" {
        return ErrorStatus(NamesRequired);
      }
      if !present || oldName !in idiomas {
        return ErrorStatus(NotListed);
      }
      idiomas := Map(idiomas, Rename(oldName, newName));
      return Ok;
    }

    /** `deleteIdioma` */
    method DeleteIdioma(nombre: string) returns (status: nat)
      requires Valid()
      modifies this
      ensures Valid() && present == old(present) && paises == old(paises)
      ensures match RemoveName(old(idiomas), nombre)
              case Success(l) => status == Ok && idiomas == l
              case Failure(e) => status == ErrorStatus(e) && idiomas == old(idiomas)
    {
      if nombre == "" {
        return ErrorStatus(NameRequired);
      }
      if !present || nombre !in idiomas {
        return ErrorStatus(NotListed);
      }
      idiomas := Filter(idiomas, Except(nombre));
      return Ok;
    }

    /** `addPais` */
    method AddPais(nombre: string) returns (status: nat)
      requires Valid()
      modifies this
      ensures Valid() && idiomas == old(idiomas)
      ensures match AddName(old(paises), nombre)
              case Success(l) => status == Created && present && paises == l
              case Failure(e) => status == ErrorStatus(e) && present == old(present) && paises == old(paises)
    {
      if nombre == "" {
        return ErrorStatus(NameRequired);
      }
      if !present {
        present, paises := true, [nombre];
        return Created;
      }
      if nombre in paises {
        return ErrorStatus(AlreadyListed);
      }
      paises := paises + [nombre];
      return Created;
    }

    /** `addMultiplesPaises`; `inputs` is None when the body's `paises` is
        missing or not an array. */
    method AddMultiplesPaises(inputs: Option<seq<string>>) returns (status: nat)
      requires Valid()
      modifies this
      ensures Valid() && idiomas == old(idiomas)
      ensures match AddNames(old(paises), inputs)
              case Success(l) => status == Created && present && paises == l
              case Failure(e) => status == ErrorStatus(e) && present == old(present) && paises == old(paises)
    {
      if inputs.None? || inputs.value == [] {
        return ErrorStatus(ListRequired);
      }
      if !present {
        AddNamesToEmpty(inputs.value);
        present, paises := true, inputs.value;
        return Created;
      }
      paises := paises + Filter(inputs.value, NotIn(paises));
      return Created;
    }

    /** `updatePais` */
    method UpdatePais(oldName: string, newName: string) returns (status: nat)
      requires Valid()
      modifies this
      ensures Valid() && present == old(present) && idiomas == old(idiomas)
      ensures match ReplaceName(old(paises), oldName, newName)
              case Success(l) => status == Ok && paises == l
              case Failure(e) => status == ErrorStatus(e) && paises == old(paises)
    {
      if oldName == "" || newName == "" {
        return ErrorStatus(NamesRequired);
      }
      if !present || oldName !in paises {
        return ErrorStatus(NotListed);
      }
      paises := Map(paises, Rename(oldName, newName));
      return Ok;
    }

    /** `deletePais` */
    method DeletePais(nombre: string) returns (status: nat)
      requires Valid()
      modifies this
      ensures Valid() && present == old(present) && idiomas == old(idiomas)
      ensures match RemoveName(old(paises), nombre)
              case Success(l) => status == Ok && paises == l
              case Failure(e) => status == ErrorStatus(e) && paises == old(paises)
    {
      if nombre == "" {
        return ErrorStatus(NameRequired);
      }
      if !present || nombre !in paises {
        return ErrorStatus(NotListed);
      }
      paises := Filter(paises, Except(nombre));
      return Ok;
    }
  }
}
