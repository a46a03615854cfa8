/**
 * `getFullAssetPath` (packages/main/src/test-runner.ts): the path the test
 * runner loads its evaluators from, made to start and end with `/`.
 */
module TestRunner {
  import opened Wrappers
  import opened JsStrings

  /** The path used when the caller passes none. */
  const DefaultAssetPath: string := "/dist/"

  /** What `getFullAssetPath` returns for `assetPath`. */
  function FullAssetPath(assetPath: string): string {
    (if StartsWith(assetPath, "/") then "" else "/") + assetPath + (if EndsWith(assetPath, "/") then "" else "/")
  }

  /**
   * `getFullAssetPath(assetPath = "/dist/")`: both tests are made on the
   * path as given, then the parameter is reassigned at most twice.
   */
  method GetFullAssetPath(path: Option<string>) returns (assetPath: string)
    ensures assetPath == FullAssetPath(path.GetOr(DefaultAssetPath))
  {
    assetPath := path.GetOr(DefaultAssetPath);
    var isAbsolute := StartsWith(assetPath, "/");
    var hasTrailingSlash := EndsWith(assetPath, "/");
    if !isAbsolute {
      assetPath := "/" + assetPath;
    }
    if !hasTrailingSlash {
      assetPath := assetPath + "/";
    }
  }

  /** The result starts and ends with `/`. */
  lemma FullAssetPathSlashes(p: string)
    ensures StartsWith(FullAssetPath(p), "/") && EndsWith(FullAssetPath(p), "/")
  {
  }

  /**
   * The path is kept whole in the middle: at most one `/` is added in front,
   * exactly when it did not start with one, and at most one behind, exactly
   * when it did not end with one.
   */
  lemma FullAssetPathKeepsPath(p: string)
    ensures var r := FullAssetPath(p);
      var front := if StartsWith(p, "/") then 0 else 1;
      var back := if EndsWith(p, "/") then 0 else 1;
      |r| == front + |p| + back && r[front..front + |p|] == p
      && (front == 1 ==> r[0] == '/') && (back == 1 ==> r[|r| - 1] == '/')
  {
  }

  /** A path that already starts and ends with `/` comes back unchanged. */
  lemma FullAssetPathFixed(p: string)
    requires StartsWith(p, "/") && EndsWith(p, "/")
    ensures FullAssetPath(p) == p
  {
  }

  /** Applying it twice is applying it once. */
  lemma FullAssetPathIdempotent(p: string)
    ensures FullAssetPath(FullAssetPath(p)) == FullAssetPath(p)
  {
    FullAssetPathSlashes(p);
    FullAssetPathFixed(FullAssetPath(p));
  }

  /** The flags are taken before either change: `""` gets two slashes, `"/"` none; the default is kept. */
  lemma FullAssetPathExamples()
    ensures FullAssetPath("") == "//"
    ensures FullAssetPath("/") == "/"
    ensures FullAssetPath("dist") == "/dist/"
    ensures FullAssetPath(DefaultAssetPath) == "/dist/"
  {
    assert !StartsWith("", "/") && !EndsWith("", "/");
    assert StartsWith("/", "/") && EndsWith("/", "/");
    assert !StartsWith("dist", "/") && !EndsWith("dist", "/");
    FullAssetPathFixed(DefaultAssetPath);
  }
}
