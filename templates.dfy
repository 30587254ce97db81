/**
 * Template resolution in `do`: the dotted logical path of the URL becomes a
 * storage path (every `.` replaced with `/`, then `.sql` appended), which is
 * looked up in the template store; a missing template is `TemplateNotFound`.
 */
module Templates {
  import opened Wrappers

  const Suffix := ".sql"

  function DotToSlash(c: char): char {
    if c == '.' then '/' else c
  }

  function SlashToDot(c: char): char {
    if c == '/' then '.' else c
  }

  /** `s.replace(".", "/")`: each character kept, except that dots become slashes. */
  function ReplaceDots(s: string): (r: string)
    ensures |r| == |s|
    ensures forall i :: 0 <= i < |s| ==> r[i] == DotToSlash(s[i])
  {
    if s == [] then [] else [DotToSlash(s[0])] + ReplaceDots(s[1..])
  }

  /** `s.replace("/", ".")`, the reverse rewrite. */
  function ReplaceSlashes(s: string): (r: string)
    ensures |r| == |s|
    ensures forall i :: 0 <= i < |s| ==> r[i] == SlashToDot(s[i])
  {
    if s == [] then [] else [SlashToDot(s[0])] + ReplaceSlashes(s[1..])
  }

  /** `templatePath = path.replace(".", "/") + ".sql"` */
  function TemplatePath(path: string): (r: string)
    ensures |r| == |path| + 4
    ensures r[..|path|] == ReplaceDots(path) && r[|path|..] == Suffix
    ensures forall i :: 0 <= i < |path| ==> r[i] != '.'
    ensures forall i :: 0 <= i < |path| ==> (r[i] == '/' <==> path[i] == '.' || path[i] == '/')
    ensures forall i :: 0 <= i < |path| && path[i] != '.' ==> r[i] == path[i]
  {
    ReplaceDots(path) + Suffix
  }

  /** Recovers the logical path from a storage path, if it has the `.sql` suffix. */
  function LogicalPath(storage: string): (r: Option<string>)
    ensures r.Some? <==> |storage| >= 4 && storage[|storage| - 4..] == Suffix
  {
    if |storage| >= 4 && storage[|storage| - 4..] == Suffix
    then Some(ReplaceSlashes(storage[..|storage| - 4]))
    else None
  }

  /**
   * A URL segment matched by Flask's `<string:path>` never holds a `/`; for
   * such paths the rewrite loses nothing and `LogicalPath` undoes it.
   */
  lemma TemplatePathRoundTrip(path: string)
    requires forall i :: 0 <= i < |path| ==> path[i] != '/'
    ensures LogicalPath(TemplatePath(path)) == Some(path)
  {
    var t := TemplatePath(path);
    assert t[..|t| - 4] == ReplaceDots(path);
    var back := ReplaceSlashes(ReplaceDots(path));
    assert forall i :: 0 <= i < |path| ==> back[i] == path[i];
    assert back == path;
  }

  /** Distinct slash-free logical paths name distinct templates. */
  lemma TemplatePathInjective(p: string, q: string)
    requires forall i :: 0 <= i < |p| ==> p[i] != '/'
    requires forall i :: 0 <= i < |q| ==> q[i] != '/'
    requires TemplatePath(p) == TemplatePath(q)
    ensures p == q
  {
    TemplatePathRoundTrip(p);
    TemplatePathRoundTrip(q);
  }

  /**
   * Why `TemplatePathRoundTrip` asks for a slash-free path: with a `/` the
   * rewrite would not be injective. The route never delivers such a path.
   */
  lemma SlashAndDotCollide()
    ensures TemplatePath("a.b") == TemplatePath("a/b") == "a/b.sql"
  {
    assert TemplatePath("a.b")[1] == '/';
  }

  /** `env.get_template(templatePath)`: the body stored under that path, or `TemplateNotFound`. */
  function GetTemplate(store: map<string, string>, templatePath: string): (r: Option<string>)
    ensures r.Some? <==> templatePath in store
    ensures r.Some? ==> r.value == store[templatePath]
  {
    if templatePath in store then Some(store[templatePath]) else None
  }
}
