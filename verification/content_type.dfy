/** The file-extension to Content-Type table used when serving static files,
    and the text-or-binary decision taken from its answer. */
module ContentType {

  const DefaultContentType: string := "text/html"

  /** Reference: the seven extensions the table knows. */
  const KnownTypes: map<string, string> := map[
    ".js" := "text/javascript",
    ".css" := "text/css",
    ".json" := "application/json",
    ".png" := "image/png",
    ".jpg" := "image/jpeg",
    ".gif" := "image/gif",
    ".ico" := "image/vnd.microsoft.icon"
  ]

  /** `ext_to_content_type(ext, default)`: a chain of comparisons, falling back
      to `default`. */
  function ExtToContentType(ext: string, default: string): (ct: string)
    ensures ext in KnownTypes ==> ct == KnownTypes[ext]
    ensures ext !in KnownTypes ==> ct == default
  {
    if ext == ".js" then "text/javascript"
    else if ext == ".css" then "text/css"
    else if ext == ".json" then "application/json"
    else if ext == ".png" then "image/png"
    else if ext == ".jpg" then "image/jpeg"
    else if ext == ".gif" then "image/gif"
    else if ext == ".ico" then "image/vnd.microsoft.icon"
    else default
  }

  /** Python's `sub in s` on strings. */
  predicate Contains(s: string, sub: string)
    decreases |s|
  {
    |sub| <= |s| && (s[..|sub|] == sub || Contains(s[1..], sub))
  }

  /** `sub` cannot occur in `s` when its first two characters never occur side by side in `s`. */
  lemma {:induction false} NoLeadingPair(s: string, sub: string)
    requires |sub| >= 2
    requires forall i :: 0 <= i < |s| - 1 ==> s[i] != sub[0] || s[i + 1] != sub[1]
    ensures !Contains(s, sub)
  {
    if |sub| <= |s| {
      assert s[..|sub|][0] == s[0] && s[..|sub|][1] == s[1];
      forall i | 0 <= i < |s[1..]| - 1 ensures s[1..][i] != sub[0] || s[1..][i + 1] != sub[1] {
        assert s[1..][i] == s[i + 1] && s[1..][i + 1] == s[i + 2];
      }
      NoLeadingPair(s[1..], sub);
    }
  }

  datatype Mode = Text | Binary

  /** A static file is read as text exactly when its Content-Type mentions "text". */
  function ServeMode(ct: string): Mode {
    if Contains(ct, "text") then Text else Binary
  }

  /** The mode a file with extension `ext` is served in, with the default fallback:
      text for scripts, style sheets and unknown extensions, binary for the rest. */
  function StaticFileMode(ext: string): (m: Mode)
    ensures m == Text <==> ext == ".js" || ext == ".css" || ext !in KnownTypes
  {
    var ct := ExtToContentType(ext, DefaultContentType);
    if ext == ".js" || ext == ".css" then
      ScriptAndStyleAreText();
      ServeMode(ct)
    else if ext in KnownTypes then
      OthersAreBinary(ext);
      ServeMode(ct)
    else
      DefaultIsText();
      ServeMode(ct)
  }

  lemma ScriptAndStyleAreText()
    ensures Contains(KnownTypes[".js"], "text") && Contains(KnownTypes[".css"], "text")
  {
  }

  lemma DefaultIsText()
    ensures Contains(DefaultContentType, "text")
  {
  }

  /** The five known types other than script and style sheet never mention "text". */
  lemma OthersAreBinary(ext: string)
    requires ext in KnownTypes && ext != ".js" && ext != ".css"
    ensures !Contains(KnownTypes[ext], "text")
  {
    var ct := KnownTypes[ext];
    if ext == ".json" {
      assert ct == "application/json";
      NoLeadingPair("application/json", "text");
    } else if ext == ".png" {
      assert ct == "image/png";
      NoLeadingPair("image/png", "text");
    } else if ext == ".jpg" {
      assert ct == "image/jpeg";
      NoLeadingPair("image/jpeg", "text");
    } else if ext == ".gif" {
      assert ct == "image/gif";
      NoLeadingPair("image/gif", "text");
    } else {
      assert ct == "image/vnd.microsoft.icon";
      NoLeadingPair("image/vnd.microsoft.icon", "text");
    }
  }
}
