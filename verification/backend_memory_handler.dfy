/**
 * Where a cached recap lives on disk: the key, and the session when there is
 * one, are reduced to letters, digits, '-' and '_' so that they name exactly
 * one file under the cache directory.
 */
module BackendMemoryHandler {
  import opened PyValues

  /** The cache directory every recap file lives in. */
  const CacheDir := ".cache"

  /** A character kept as it is: a letter or digit (ASCII), '-' or '_'. */
  predicate Allowed(c: char) {
    'a' <= c <= 'z' || 'A' <= c <= 'Z' || '0' <= c <= '9' || c == '-' || c == '_'
  }

  /** Every other character becomes '_', one for one. */
  function Sanitize(s: string): (r: string)
    ensures |r| == |s|
    ensures forall i :: 0 <= i < |s| ==> r[i] == if Allowed(s[i]) then s[i] else '_'
  {
    if s == [] then [] else [if Allowed(s[0]) then s[0] else '_'] + Sanitize(s[1..])
  }

  /** A sanitised name holds only kept characters, so no separator and no dot. */
  lemma SanitizedIsSafe(s: string)
    ensures forall i :: 0 <= i < |Sanitize(s)| ==> Allowed(Sanitize(s)[i])
    ensures '/' !in Sanitize(s) && '.' !in Sanitize(s)
  {
    var r := Sanitize(s);
    assert forall i :: 0 <= i < |r| ==> Allowed(r[i]);
  }

  /** Sanitising twice is sanitising once. */
  lemma SanitizeIdempotent(s: string)
    ensures Sanitize(Sanitize(s)) == Sanitize(s)
  {
    SanitizedIsSafe(s);
  }

  /** A name is left alone exactly when all of its characters are kept. */
  lemma SanitizeFixesExactlyAllowed(s: string)
    ensures Sanitize(s) == s <==> forall i :: 0 <= i < |s| ==> Allowed(s[i])
  {
    if Sanitize(s) == s {
      SanitizedIsSafe(s);
    }
  }

  /**
   * `_key_to_path`: the path, one component per element. Without a session
   * (None or the empty string) the file sits in the cache directory;
   * otherwise in a sub-directory named after the sanitised session.
   */
  function KeyToPath(key: string, sessionId: Option<string>): (path: seq<string>)
    ensures |path| == 2 || |path| == 3
    ensures path[0] == CacheDir && path[|path| - 1] == Sanitize(key) + ".json"
    ensures |path| == 3 <==> sessionId.Some? && sessionId.value != ""
    ensures |path| == 3 ==> path[1] == Sanitize(sessionId.value)
  {
    var safeKey := Sanitize(key);
    if sessionId.Some? && sessionId.value != "" then [CacheDir, Sanitize(sessionId.value), safeKey + ".json"]
    else [CacheDir, safeKey + ".json"]
  }

  /**
   * Every component below the cache directory is a plain name: the session
   * directory is non-empty and free of separators and dots, and the file
   * name is a sanitised key followed by ".json".
   */
  lemma PathStaysInCache(key: string, sessionId: Option<string>)
    ensures forall i :: 1 <= i < |KeyToPath(key, sessionId)| ==> '/' !in KeyToPath(key, sessionId)[i]
    ensures |KeyToPath(key, sessionId)| == 3 ==>
      KeyToPath(key, sessionId)[1] != "" && '.' !in KeyToPath(key, sessionId)[1]
  {
    SanitizedIsSafe(key);
    var name := Sanitize(key) + ".json";
    assert forall i :: 0 <= i < |name| ==> name[i] != '/';
    if sessionId.Some? && sessionId.value != "" {
      SanitizedIsSafe(sessionId.value);
    }
  }
}
