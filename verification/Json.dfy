/** JSON values, and the order in which the fields of an object are visited. An object is a map:
    field names are taken to be distinct, and a name is a key, not a path. */
module Json {
  import opened StringOrder

  datatype JSON =
    | Null
    | Bool(b: bool)
    | Number(literal: string)
    | Str(s: string)
    | Arr(items: seq<JSON>)
    | Obj(fields: map<string, JSON>)

  /** Strictly descending, hence without repetition. */
  predicate Descending(names: seq<string>) {
    forall i, j :: 0 <= i < j < |names| ==> Less(names[j], names[i])
  }

  ghost predicate SameNames(names: seq<string>, s: set<string>) {
    forall n :: n in names <==> n in s
  }

  function Insert(x: string, names: seq<string>): seq<string> {
    if names == [] then [x]
    else if Less(names[0], x) then [x] + names
    else [names[0]] + Insert(x, names[1..])
  }

  lemma {:induction false} InsertElements(x: string, names: seq<string>, n: string)
    ensures n in Insert(x, names) <==> n == x || n in names
  {
    if names != [] && !Less(names[0], x) {
      InsertElements(x, names[1..], n);
      assert names == [names[0]] + names[1..];
    }
  }

  lemma {:induction false} InsertDescending(x: string, names: seq<string>)
    requires Descending(names) && x !in names
    ensures Descending(Insert(x, names))
  {
    hide Less;
    if names != [] {
      if Less(names[0], x) {
        forall j | 0 <= j < |names| ensures Less(names[j], x) {
          if j > 0 { Transitive(names[j], names[0], x); }
        }
      } else {
        var tail := names[1..];
        assert names == [names[0]] + tail;
        InsertDescending(x, tail);
        Total(names[0], x);
        var r := Insert(x, tail);
        forall j | 0 <= j < |r| ensures Less(r[j], names[0]) {
          InsertElements(x, tail, r[j]);
        }
      }
    }
  }

  /** The names of a set in descending order. */
  ghost function DescendingNames(s: set<string>): (names: seq<string>)
    ensures Descending(names) && SameNames(names, s)
  {
    if s == {} then []
    else
      var x :| x in s;
      var rest := DescendingNames(s - {x});
      InsertDescending(x, rest);
      assert forall n :: n in Insert(x, rest) <==> n == x || n in rest by {
        forall n { InsertElements(x, rest, n); }
      }
      Insert(x, rest)
  }

  /** There is only one such order. */
  lemma {:induction false} OrderUnique(a: seq<string>, b: seq<string>, s: set<string>)
    requires Descending(a) && Descending(b) && SameNames(a, s) && SameNames(b, s)
    ensures a == b
    decreases |a|
  {
    hide Less;
    EmptyNames(a, s);
    EmptyNames(b, s);
    if a != [] {
      assert a[0] in b;
      assert b[0] in a;
      if a[0] != b[0] {
        assert Less(a[0], b[0]) && Less(b[0], a[0]);
        Asymmetric(a[0], b[0]);
      } else {
        TailNames(a, s);
        TailNames(b, s);
        OrderUnique(a[1..], b[1..], s - {a[0]});
        assert a == [a[0]] + a[1..] && b == [b[0]] + b[1..];
      }
    }
  }

  lemma EmptyNames(a: seq<string>, s: set<string>)
    requires SameNames(a, s)
    ensures a == [] <==> s == {}
  {
    if a != [] { assert a[0] in s; }
  }

  lemma TailNames(a: seq<string>, s: set<string>)
    requires a != [] && Descending(a) && SameNames(a, s)
    ensures Descending(a[1..]) && SameNames(a[1..], s - {a[0]})
  {
    hide Less;
    forall n ensures n in a[1..] <==> n in s - {a[0]} {
      if n in a[1..] {
        var j :| 1 <= j < |a| && a[j] == n;
        Asymmetric(a[j], a[0]);
      }
    }
  }

  /** sortedJSONKeys: the field names of an object in descending order, whatever order the object is
      visited in. */
  method SortedJSONKeys(fields: map<string, JSON>) returns (names: seq<string>)
    ensures names == DescendingNames(fields.Keys)
  {
    hide Less;
    names := [];
    var rest := fields.Keys;
    while rest != {}
      invariant rest <= fields.Keys
      invariant Descending(names) && SameNames(names, fields.Keys - rest)
      decreases rest
    {
      hide DescendingNames;
      var x :| x in rest;
      forall n { InsertElements(x, names, n); }
      InsertDescending(x, names);
      names := Insert(x, names);
      rest := rest - {x};
    }
    OrderUnique(names, DescendingNames(fields.Keys), fields.Keys);
  }
}
