/** Data shared by the modules: bytes, timestamps, and the objects a pack run stores. */
module Types {

  datatype Option<+T> = None | Some(value: T)

  type byte = b: int | 0 <= b < 256

  type Bytes = seq<byte>

  const NEWLINE: byte := 10
  const CARRIAGE_RETURN: byte := 13

  datatype Time = Time(sec: int, nsec: int)

  /** One object of a snapshot, represented by the first path that carries its id. */
  datatype Obj = Obj(id: string, path: Bytes, data: Bytes, mtime: Time)

  ghost predicate DistinctIds(objs: seq<Obj>) {
    forall i, j :: 0 <= i < j < |objs| ==> objs[i].id != objs[j].id
  }

  ghost predicate DistinctPaths(objs: seq<Obj>) {
    forall i, j :: 0 <= i < j < |objs| ==> objs[i].path != objs[j].path
  }

  ghost predicate Injective<A(!new), B>(f: A -> B) {
    forall x, y :: f(x) == f(y) ==> x == y
  }

  /** The first element with a property, or the length if none has it. */
  function FirstIndex<T>(s: seq<T>, hit: T -> bool): (i: nat)
    ensures i <= |s| && (i < |s| ==> hit(s[i])) && forall j :: 0 <= j < i ==> !hit(s[j])
  {
    if s == [] || hit(s[0]) then 0 else 1 + FirstIndex(s[1..], hit)
  }
}
