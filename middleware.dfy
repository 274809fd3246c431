/** The request middleware (middleware.ts): every response it passes on
    carries the security headers, and a path that looks like traversal or
    a request for configuration is answered with a bare 403. */
module Middleware {
  import opened Base
  import Security

  /** A response: the status, the body of one the middleware builds itself
      (`None` for the passed-on response), and the headers. */
  datatype Response = Response(status: int, body: Option<string>, headers: map<string, string>)

  const PASS_STATUS := 200
  /** `new NextResponse('Forbidden', { status: 403 })`: no headers at all. */
  const FORBIDDEN := Response(403, Some("Forbidden"), map[])

  predicate IsSensitivePath(pathname: string) {
    Contains(pathname, "..") || Contains(pathname, ".env") || Contains(pathname, "config")
  }

  /** The headers after setting each entry in order; a later entry with the
      same name wins. */
  function HeaderMap(entries: seq<(string, string)>): (m: map<string, string>)
    ensures m.Keys == set i | 0 <= i < |entries| :: entries[i].0
  {
    if entries == [] then map[]
    else
      var init := entries[..|entries| - 1];
      var last := entries[|entries| - 1];
      var m := HeaderMap(init)[last.0 := last.1];
      assert (set i | 0 <= i < |entries| :: entries[i].0) == (set i | 0 <= i < |init| :: init[i].0) + {last.0} by {
        forall i | 0 <= i < |init| ensures init[i].0 == entries[i].0 { }
      }
      m
  }

  predicate DistinctNames(entries: seq<(string, string)>) {
    forall i, j :: 0 <= i < j < |entries| ==> entries[i].0 != entries[j].0
  }

  /** With distinct names every entry is present with its own value. */
  lemma {:induction false} HeaderMapHasEvery(entries: seq<(string, string)>)
    requires DistinctNames(entries)
    ensures forall i :: 0 <= i < |entries| ==> HeaderMap(entries)[entries[i].0] == entries[i].1
  {
    if entries != [] {
      var init := entries[..|entries| - 1];
      assert DistinctNames(init) by {
        forall i, j | 0 <= i < j < |init| ensures init[i].0 != init[j].0 {
          assert init[i] == entries[i] && init[j] == entries[j];
        }
      }
      HeaderMapHasEvery(init);
      forall i | 0 <= i < |entries| ensures HeaderMap(entries)[entries[i].0] == entries[i].1 {
        if i < |entries| - 1 {
          assert init[i] == entries[i];
        }
      }
    }
  }

  /** The seven security headers have distinct names. */
  lemma SecurityHeaderNamesDistinct(csp: string)
    ensures DistinctNames(Security.HeadersAround(csp))
  {
    var h := Security.HeadersAround(csp);
    assert h[0].0[0] == 'C' && h[4].0[0] == 'R' && h[5].0[0] == 'P' && h[6].0[0] == 'S';
    assert h[1].0[..3] == "X-C" && h[2].0[..3] == "X-F" && h[3].0[..3] == "X-X";
  }

  /** `Object.entries(SECURITY_HEADERS).forEach(... headers.set ...)`. */
  method SetHeaders(entries: seq<(string, string)>) returns (headers: map<string, string>)
    ensures headers == HeaderMap(entries)
  {
    headers := map[];
    for i := 0 to |entries|
      invariant headers == HeaderMap(entries[..i])
    {
      assert entries[..i + 1][..i] == entries[..i];
      headers := headers[entries[i].0 := entries[i].1];
    }
    assert entries[..|entries|] == entries;
  }

  /** middleware: the headers are set first, then the path is checked, and
      a refused path gets the fresh 403 in place of the prepared response. */
  method Handle(pathname: string) returns (r: Response)
    ensures IsSensitivePath(pathname) ==> r == FORBIDDEN
    ensures !IsSensitivePath(pathname) ==> r == Response(PASS_STATUS, None, HeaderMap(Security.SecurityHeaders()))
  {
    var headers := SetHeaders(Security.SecurityHeaders());
    if IsSensitivePath(pathname) {
      return FORBIDDEN;
    }
    r := Response(PASS_STATUS, None, headers);
  }

  /** A passed-on response carries exactly the security headers, each with
      its value, whatever the policy text. */
  lemma PassedResponseHeaders(csp: string)
    ensures var h := Security.HeadersAround(csp);
      var m := HeaderMap(h);
      && |m.Keys| == |h|
      && forall i :: 0 <= i < |h| ==> m[h[i].0] == h[i].1
  {
    var h := Security.HeadersAround(csp);
    SecurityHeaderNamesDistinct(csp);
    HeaderMapHasEvery(h);
    DistinctNamesCount(h);
  }

  lemma {:induction false} DistinctNamesCount(entries: seq<(string, string)>)
    requires DistinctNames(entries)
    ensures |set i | 0 <= i < |entries| :: entries[i].0| == |entries|
  {
    if entries != [] {
      var init := entries[..|entries| - 1];
      assert DistinctNames(init) by {
        forall i, j | 0 <= i < j < |init| ensures init[i].0 != init[j].0 {
          assert init[i] == entries[i] && init[j] == entries[j];
        }
      }
      DistinctNamesCount(init);
      var before := set i | 0 <= i < |init| :: init[i].0;
      var last := entries[|entries| - 1].0;
      assert (set i | 0 <= i < |entries| :: entries[i].0) == before + {last} by {
        forall i | 0 <= i < |init| ensures init[i].0 == entries[i].0 { }
      }
      assert last !in before;
    }
  }

  /** Whatever surrounds a `..`, the request is refused. */
  lemma TraversalAlwaysRefused(prefix: string, suffix: string)
    ensures IsSensitivePath(prefix + ".." + suffix)
  {
    var p := prefix + ".." + suffix;
    assert p[|prefix|..|prefix| + 2] == "..";
    assert OccursAt(p, "..", |prefix|);
  }
}
