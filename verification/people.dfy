/** The participants of a split: created from the chosen head count, then renamed freely. */
module People {
  import opened Text

  /** An entry of a person's own item list; the pages declare it but never fill it. */
  datatype Share = Share(itemId: int, quantity: real)

  datatype Person = Person(id: int, name: string, items: seq<Share>)

  predicate DistinctIds(ps: seq<Person>) {
    forall i, j :: 0 <= i < j < |ps| ==> ps[i].id != ps[j].id
  }

  /** The placeholder name of the person with a given id. */
  function DefaultName(id: nat): string {
    "Person " + NatText(id)
  }

  /** The `Array.from` in `onSubmit`: ids 1..n, default names, empty item lists. */
  function InitPeople(n: nat): (r: seq<Person>)
    ensures |r| == n
    ensures forall i :: 0 <= i < n ==> r[i].id == i + 1 && r[i].name == DefaultName(i + 1) && r[i].items == []
    ensures DistinctIds(r)
  {
    if n == 0 then [] else InitPeople(n - 1) + [Person(n, DefaultName(n), [])]
  }

  /** `updatePersonName`: every person whose id matches gets the new name; nothing else moves. */
  function Rename(ps: seq<Person>, id: int, name: string): (r: seq<Person>)
    ensures |r| == |ps|
    ensures forall i :: 0 <= i < |ps| ==> r[i].id == ps[i].id && r[i].items == ps[i].items
    ensures forall i :: 0 <= i < |ps| && ps[i].id != id ==> r[i] == ps[i]
    ensures forall i :: 0 <= i < |ps| && ps[i].id == id ==> r[i].name == name
  {
    if |ps| == 0 then []
    else
      var head := if ps[0].id == id then ps[0].(name := name) else ps[0];
      [head] + Rename(ps[1..], id, name)
  }

  /** Renaming keeps ids unique, and the second of two renames of one person is the one that stays. */
  lemma {:induction false} RenameLastWins(ps: seq<Person>, id: int, first: string, second: string)
    ensures Rename(Rename(ps, id, first), id, second) == Rename(ps, id, second)
    ensures DistinctIds(ps) ==> DistinctIds(Rename(ps, id, first))
  {
    var a := Rename(Rename(ps, id, first), id, second);
    var b := Rename(ps, id, second);
    assert forall i :: 0 <= i < |ps| ==> a[i] == b[i];
  }

  /** Renaming a person to the name they already have changes nothing. */
  lemma {:induction false} RenameToSameName(ps: seq<Person>, k: int)
    requires DistinctIds(ps) && 0 <= k < |ps|
    ensures Rename(ps, ps[k].id, ps[k].name) == ps
  {
    var r := Rename(ps, ps[k].id, ps[k].name);
    assert forall i :: 0 <= i < |ps| ==> r[i] == ps[i];
  }
}
