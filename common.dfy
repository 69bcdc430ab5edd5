/** Small shared vocabulary: optional values, the responses a route handler
    produces, and the stable sort that models an SQL `ORDER BY <int column> ASC`. */
module Common {

  datatype Option<T> = None | Some(value: T) {
    /** `request.args.get(key, default)` style defaulting. */
    function GetOr(default: T): T {
      if Some? then value else default
    }
  }

  /** What a route handler hands back to Flask: a JSON body with a status
      code, a redirect, a rendered template, or an unhandled exception
      (which Flask turns into a 500 response). */
  datatype Response =
    | Json(statuscode: int, status: Option<string>)
    | Redirect(endpoint: string)
    | Render(template: string)
    | ServerError

  /** `s` is in ascending order of `key`. */
  ghost predicate SortedBy<T>(s: seq<T>, key: T -> int) {
    forall i, j :: 0 <= i < j < |s| ==> key(s[i]) <= key(s[j])
  }

  /** Inserts `x` into the key-sorted `s` before the first element whose key is
      not smaller, so elements with equal keys keep their relative order. */
  function Insert<T>(x: T, s: seq<T>, key: T -> int): (r: seq<T>)
    requires SortedBy(s, key)
    ensures SortedBy(r, key)
    ensures multiset(r) == multiset(s) + multiset{x}
    ensures forall i :: 0 <= i < |r| ==> r[i] == x || r[i] in s
  {
    if s == [] then [x]
    else if key(x) <= key(s[0]) then [x] + s
    else
      assert s == [s[0]] + s[1..];
      var rest := Insert(x, s[1..], key);
      SmallestFirst(s, rest, x, key);
      [s[0]] + rest
  }

  /** The head of a sorted `s` may precede any sorted mix of `s`'s tail and an
      `x` with a larger key. */
  lemma SmallestFirst<T>(s: seq<T>, rest: seq<T>, x: T, key: T -> int)
    requires s != [] && SortedBy(s, key) && SortedBy(rest, key) && key(s[0]) < key(x)
    requires forall i :: 0 <= i < |rest| ==> rest[i] == x || rest[i] in s[1..]
    ensures SortedBy([s[0]] + rest, key)
  {
    var r := [s[0]] + rest;
    forall i, j | 0 <= i < j < |r|
      ensures key(r[i]) <= key(r[j])
    {
      if i == 0 {
        var y := rest[j - 1];
        if y != x {
          var k :| 0 <= k < |s[1..]| && s[1..][k] == y;
          assert s[k + 1] == y;
        }
      } else {
        assert r[i] == rest[i - 1] && r[j] == rest[j - 1];
      }
    }
  }

  /** The rows of `s` ordered by ascending `key`, stable among equal keys. */
  function SortBy<T>(s: seq<T>, key: T -> int): (r: seq<T>)
    ensures SortedBy(r, key)
    ensures multiset(r) == multiset(s)
    ensures |r| == |s|
  {
    if s == [] then []
    else
      assert s == [s[0]] + s[1..];
      Insert(s[0], SortBy(s[1..], key), key)
  }
}
