/**
 The two path patterns of the route handlers, as string predicates.

 `pathRegex` is `^\/?([a-z0-9-_]{43})` with the case-insensitive flag: an
 optional leading slash, then exactly 43 identifier characters (ASCII letters
 of either case, digits, `-` and `_`), with no anchor at the end.

 `dataRouteRegex` is `^\/?([a-zA-Z0-9-_]{43})\/?$|^\/?([a-zA-Z0-9-_]{43})\/(.*)$`:
 an optional slash, the 43 identifier characters, and then either the end
 (after an optional slash) or a slash followed by any suffix in which `.`
 can match, i.e. one without line terminators.
 */
module Paths {

  /** Number of characters in a transaction id. */
  const IdLength: nat := 43

  predicate IsIdChar(c: char) {
    ('a' <= c <= 'z') || ('A' <= c <= 'Z') || ('0' <= c <= '9') || c == '-' || c == '_'
  }

  predicate IsId(s: string) {
    |s| == IdLength && forall i :: 0 <= i < |s| ==> IsIdChar(s[i])
  }

  /** The characters JavaScript's `.` refuses to match without the `s` flag. */
  predicate IsLineTerminator(c: char) {
    c == '\n' || c == '\r' || c == '\U{2028}' || c == '\U{2029}'
  }

  predicate NoLineTerminator(s: string) {
    forall i :: 0 <= i < |s| ==> !IsLineTerminator(s[i])
  }

  predicate OptionalSlash(s: string) {
    s == "" || s == "/"
  }

  /** Reference reading of `pathRegex`: `id` is what its capture group holds on `path`. */
  ghost predicate PathRegexCaptures(path: string, id: string) {
    IsId(id) && (id <= path || "/" + id <= path)
  }

  /** Reference reading of `dataRouteRegex`, one disjunct per alternative. */
  ghost predicate DataRouteRegexMatches(path: string) {
    || (exists lead, id, trail :: OptionalSlash(lead) && IsId(id) && OptionalSlash(trail)
                                  && path == lead + id + trail)
    || (exists lead, id, rest :: OptionalSlash(lead) && IsId(id) && NoLineTerminator(rest)
                                 && path == lead + id + "/" + rest)
  }

  /** How many characters the optional leading slash consumes. */
  function SlashPrefix(path: string): (n: nat)
    ensures n <= 1 && n <= |path|
    ensures n == 1 <==> |path| > 0 && path[0] == '/'
  {
    if |path| > 0 && path[0] == '/' then 1 else 0
  }

  /**
   `path.match(pathRegex) || []` followed by `path.length > 1 ? path[1] : ''`:
   the captured id, or the empty string when the pattern does not match.
   */
  function ExtractId(path: string): (id: string)
    ensures id == "" || PathRegexCaptures(path, id)
  {
    var k := SlashPrefix(path);
    if k + IdLength <= |path| && IsId(path[k..k + IdLength]) then
      assert path[k..k + IdLength] <= path[k..];
      path[k..k + IdLength]
    else ""
  }

  /** Whatever the pattern captures is what `ExtractId` returns, so the match is unique
      and `ExtractId` yields `''` exactly when nothing matches. */
  lemma ExtractIdComplete(path: string, id: string)
    requires PathRegexCaptures(path, id)
    ensures ExtractId(path) == id
  {
  }

  /** `dataRouteRegex.test(path)`, computed directly. */
  function IsDataRoute(path: string): (ok: bool)
    ensures ok ==> ExtractId(path) != ""
  {
    var k := SlashPrefix(path);
    && k + IdLength <= |path|
    && IsId(path[k..k + IdLength])
    && var rest := path[k + IdLength..];
       (rest == "" || (rest[0] == '/' && NoLineTerminator(rest[1..])))
  }

  /** Every string `IsDataRoute` accepts is matched by one of the pattern's alternatives. */
  lemma IsDataRouteSound(path: string)
    requires IsDataRoute(path)
    ensures DataRouteRegexMatches(path)
  {
    var k := SlashPrefix(path);
    var lead, id, rest := path[..k], path[k..k + IdLength], path[k + IdLength..];
    assert path == lead + id + rest;
    assert OptionalSlash(lead);
    if rest == "" {
      assert path == lead + id + "";
    } else {
      assert path == lead + id + "/" + rest[1..];
    }
  }

  /** Every string either alternative of the pattern matches is accepted by `IsDataRoute`. */
  lemma IsDataRouteComplete(path: string)
    requires DataRouteRegexMatches(path)
    ensures IsDataRoute(path)
  {
  }

  /** `IsDataRoute` accepts exactly the strings the pattern matches. */
  lemma IsDataRouteMatchesRegex(path: string)
    ensures IsDataRoute(path) <==> DataRouteRegexMatches(path)
  {
    if IsDataRoute(path) {
      IsDataRouteSound(path);
    }
    if DataRouteRegexMatches(path) {
      IsDataRouteComplete(path);
    }
  }

  /** A path of either alternative of the data route pattern, split into its optional
      slash, id and tail, is accepted, and `pathRegex` extracts the same id from it. */
  lemma DataRouteIdAgrees(path: string, lead: string, id: string, tail: string)
    requires OptionalSlash(lead) && IsId(id) && path == lead + id + tail
    requires tail == "" || (tail[0] == '/' && NoLineTerminator(tail[1..]))
    ensures IsDataRoute(path) && ExtractId(path) == id
  {
  }
}
