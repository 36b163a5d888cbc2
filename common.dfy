/** Values shared by every part of the backend model: optional values,
    JSON documents as produced by `jsonify`, HTTP replies, and two small
    facts about sequences. */
module Common {

  /** Python's `None` versus a present value. */
  datatype Option<+T> = None | Some(value: T)

  /** A JSON document. Objects are maps from keys to values. */
  datatype Json =
    | JNull
    | JInt(i: int)
    | JNum(r: real)
    | JStr(s: string)
    | JArr(items: seq<Json>)
    | JObj(fields: map<string, Json>)

  /** An HTTP reply: a status code and, except for 204, a JSON body. */
  datatype Response = Response(status: int, body: Option<Json>)

  /** The `jsonify({'message': text}), status` replies of the route handlers. */
  function Reply(status: int, text: string): Response
  {
    Response(status, Some(JObj(map["message" := JStr(text)])))
  }

  /** A nullable integer column as JSON. */
  function OptInt(o: Option<int>): Json
  {
    match o
    case None => JNull
    case Some(v) => JInt(v)
  }

  /** A nullable string column as JSON. */
  function OptStr(o: Option<string>): Json
  {
    match o
    case None => JNull
    case Some(v) => JStr(v)
  }

  /** The first position of `s` whose element satisfies `p`, if any. */
  function FirstIndex<T>(s: seq<T>, p: T -> bool): (r: Option<nat>)
    ensures r.Some? ==> r.value < |s| && p(s[r.value])
    ensures r.Some? ==> forall j :: 0 <= j < r.value ==> !p(s[j])
    ensures r.None? ==> forall j :: 0 <= j < |s| ==> !p(s[j])
  {
    if |s| == 0 then None
    else if p(s[0]) then Some(0)
    else
      match FirstIndex(s[1..], p)
      case None => None
      case Some(k) => Some(k + 1)
  }

  /** No element occurs twice. */
  ghost predicate NoDup<T>(s: seq<T>)
  {
    forall i, j :: 0 <= i < j < |s| ==> s[i] != s[j]
  }

  lemma NoDupSnoc<T>(s: seq<T>, x: T)
    ensures NoDup(s + [x]) <==> NoDup(s) && x !in s
  {
    var t := s + [x];
    if NoDup(s) && x !in s {
      forall i, j | 0 <= i < j < |t| ensures t[i] != t[j] {
        if j == |s| {
          assert t[i] == s[i];
        } else {
          assert t[i] == s[i] && t[j] == s[j];
        }
      }
    }
    if NoDup(t) {
      forall i, j | 0 <= i < j < |s| ensures s[i] != s[j] {
        assert t[i] == s[i] && t[j] == s[j];
      }
      forall i | 0 <= i < |s| ensures s[i] != x {
        assert t[i] == s[i] && t[|s|] == x;
      }
    }
  }
}
