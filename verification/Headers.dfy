/** Header fields: http.Header as far as Sidekick reads and writes it. */
module Headers {

  /** The field lines of a header, canonical name first; a name may occur several times. */
  type Header = seq<(string, string)>

  /** All values of a name, in order. */
  function Values(h: Header, name: string): seq<string> {
    if h == [] then [] else (if h[0].0 == name then [h[0].1] else []) + Values(h[1..], name)
  }

  /** http.Header.Get: the first value, or "" when there is none. */
  function HeaderValue(h: Header, name: string): string {
    if Values(h, name) == [] then "" else Values(h, name)[0]
  }

  predicate HasField(h: Header, name: string) {
    Values(h, name) != []
  }

  function Join(ss: seq<string>, sep: string): string {
    if ss == [] then "" else if |ss| == 1 then ss[0] else ss[0] + sep + Join(ss[1..], sep)
  }

  function Removed(h: Header, name: string): (r: Header)
    ensures |r| <= |h|
  {
    if h == [] then []
    else if h[0].0 == name then Removed(h[1..], name)
    else [h[0]] + Removed(h[1..], name)
  }

  /** The fields of a message, shared by the handlers that add to it. */
  class HttpHeader {
    var fields: Header

    constructor ()
      ensures fields == []
    {
      fields := [];
    }

    method Set(name: string, value: string)
      modifies this
      ensures forall n :: Values(fields, n) == if n == name then [value] else Values(old(fields), n)
    {
      RemovedOthers(fields, name);
      fields := [(name, value)] + Removed(fields, name);
      assert fields[1..] == Removed(old(fields), name);
    }

    method Del(name: string)
      modifies this
      ensures forall n :: Values(fields, n) == if n == name then [] else Values(old(fields), n)
    {
      RemovedOthers(fields, name);
      fields := Removed(fields, name);
    }
  }

  lemma {:induction false} RemovedOthers(h: Header, name: string)
    ensures forall n :: Values(Removed(h, name), n) == if n == name then [] else Values(h, n)
  {
    if h != [] {
      RemovedOthers(h[1..], name);
    }
  }

  lemma {:induction false} ValuesAppended(h: Header, f: (string, string), name: string)
    ensures Values(h + [f], name) == Values(h, name) + if f.0 == name then [f.1] else []
  {
    if h == [] {
      assert h + [f] == [f];
    } else {
      assert (h + [f])[1..] == h[1..] + [f];
      ValuesAppended(h[1..], f, name);
    }
  }

  lemma {:induction false} NoValues(h: Header, name: string)
    ensures Values(h, name) == [] <==> forall i :: 0 <= i < |h| ==> h[i].0 != name
  {
    if h != [] {
      NoValues(h[1..], name);
      assert forall i :: 0 < i < |h| ==> h[i] == h[1..][i - 1];
      assert forall i :: 0 <= i < |h[1..]| ==> h[1..][i] == h[i + 1];
    }
  }
}
