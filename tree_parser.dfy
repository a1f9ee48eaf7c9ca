/**
 * How `parseLinks` turns the anchors of a page into the page tree: the
 * node id derived from each link path, the nodes with their labels, and
 * the parent link inferred for every node from the hyphens of its id.
 */
module TreeParser {
  import opened Wrappers
  import opened Seqs
  import opened JsText
  import opened TreeGraph

  // ---------------------------------------------------------------------------
  // String steps of the id derivation, one per `replace`
  // ---------------------------------------------------------------------------

  /** `replace(/\\/g, "/")`: every backslash becomes a slash. */
  function Slashes(s: string): (r: string)
    ensures |r| == |s|
    ensures forall i :: 0 <= i < |s| ==> r[i] == (if s[i] == '\\' then '/' else s[i])
  {
    if s == [] then [] else Slashes(s[..|s| - 1]) + [if s[|s| - 1] == '\\' then '/' else s[|s| - 1]]
  }

  /** `s` starts with a drive such as `C:/` (the pattern `^[a-zA-Z]:\/`). */
  predicate HasDrivePrefix(s: string) {
    |s| >= 3 && IsAsciiLetter(s[0]) && s[1] == ':' && s[2] == '/'
  }

  /** `replace(/^[a-zA-Z]:\//, "")`. */
  function DropDrive(s: string): string {
    if HasDrivePrefix(s) then s[3..] else s
  }

  /** The number of slashes `s` starts with. */
  function LeadingSlashes(s: string): (n: nat)
    ensures n <= |s|
    ensures forall i :: 0 <= i < n ==> s[i] == '/'
    ensures n < |s| ==> s[n] != '/'
  {
    if |s| > 0 && s[0] == '/' then 1 + LeadingSlashes(s[1..]) else 0
  }

  /** `replace(/^\/+/, "")`. */
  function DropLeadingSlashes(s: string): (r: string)
    ensures r == [] || r[0] != '/'
  {
    s[LeadingSlashes(s)..]
  }

  /** `lastIndexOf(c)`: the last position of `c`, or -1. */
  function LastIndexOf(s: string, c: char): (r: int)
    ensures -1 <= r < |s|
    ensures r >= 0 ==> s[r] == c
    ensures forall k :: r < k < |s| ==> s[k] != c
  {
    if s == [] then -1
    else if s[|s| - 1] == c then |s| - 1
    else LastIndexOf(s[..|s| - 1], c)
  }

  /** The last part of `split("/")`. */
  function FileName(p: string): string {
    p[LastIndexOf(p, '/') + 1..]
  }

  /** `split("/")` without its last part, joined again with `/`. */
  function ParentPath(p: string): string {
    var k := LastIndexOf(p, '/');
    if k < 0 then [] else p[..k]
  }

  /** `replace(/\.[^/.]+$/, "")`: drop a final dot and the non-empty run after it that holds no slash or dot. */
  function StripExtension(f: string): string {
    var k := LastIndexOf(f, '.');
    if 0 <= k && k + 1 < |f| && '/' !in f[k + 1..] then f[..k] else f
  }

  /** The class `[^a-zA-Z0-9]` replaced by a hyphen. */
  function Hyphen(c: char): char {
    if IsAlphaNumeric(c) then c else '-'
  }

  /** The class `[^a-zA-Z0-9-]` replaced by a hyphen. */
  function KeepHyphen(c: char): char {
    if IsAlphaNumeric(c) || c == '-' then c else '-'
  }

  /** `replace(/[^a-zA-Z0-9]/g, "-")`. */
  function Hyphenate(s: string): (r: string)
    ensures |r| == |s|
    ensures forall i :: 0 <= i < |s| ==> r[i] == Hyphen(s[i])
  {
    if s == [] then [] else Hyphenate(s[..|s| - 1]) + [Hyphen(s[|s| - 1])]
  }

  /** `replace(/[^a-zA-Z0-9-]/g, "-")`. */
  function KeepHyphenate(s: string): (r: string)
    ensures |r| == |s|
    ensures forall i :: 0 <= i < |s| ==> r[i] == KeepHyphen(s[i])
  {
    if s == [] then [] else KeepHyphenate(s[..|s| - 1]) + [KeepHyphen(s[|s| - 1])]
  }

  /** `replace(/\/+/g, "-")`: every run of slashes becomes one hyphen. */
  function SlashRuns(s: string): (r: string)
    ensures |r| <= |s|
    ensures r == [] <==> s == []
  {
    if s == [] then []
    else
      var front := s[..|s| - 1];
      var c := s[|s| - 1];
      if c == '/' && front != [] && front[|front| - 1] == '/' then SlashRuns(front)
      else SlashRuns(front) + [if c == '/' then '-' else c]
  }

  /** `replace(/-+/g, "-")`: every run of hyphens becomes one. */
  function Collapse(s: string): (r: string)
    ensures |r| <= |s|
    ensures r == [] <==> s == []
    ensures s != [] ==> r[|r| - 1] == s[|s| - 1]
  {
    if s == [] then []
    else
      var front := s[..|s| - 1];
      var c := s[|s| - 1];
      if c == '-' && front != [] && front[|front| - 1] == '-' then Collapse(front)
      else Collapse(front) + [c]
  }

  /** The characters a node id is made of: lower-case ASCII letters, digits and hyphens. */
  predicate IsIdChar(c: char) {
    ('a' <= c <= 'z') || IsDigit(c) || c == '-'
  }

  predicate AllIdChars(s: string) {
    forall i :: 0 <= i < |s| ==> IsIdChar(s[i])
  }

  lemma JoinIdChars(a: string, b: string)
    requires AllIdChars(a) && AllIdChars(b)
    ensures AllIdChars(a + "-" + b)
  {
    var id := a + "-" + b;
    forall i | 0 <= i < |id| ensures IsIdChar(id[i]) {
      if i < |a| {
        assert id[i] == a[i];
      } else if i > |a| {
        assert id[i] == b[i - |a| - 1];
      }
    }
  }

  /** The chain applied to a file name: hyphens for other characters, runs collapsed, lower case. */
  function Slug(s: string): (r: string)
    ensures |r| <= |s| && (r == [] <==> s == [])
  {
    LowerAll(Collapse(Hyphenate(s)))
  }

  /** Text made of ASCII letters, digits and hyphens, with no two hyphens in a row. */
  predicate IsSlugText(s: string) {
    && (forall i :: 0 <= i < |s| ==> IsAlphaNumeric(s[i]) || s[i] == '-')
    && (forall i :: 0 <= i < |s| - 1 ==> !(s[i] == '-' && s[i + 1] == '-'))
  }

  /** Collapsing the hyphen runs of text made of letters, digits and hyphens leaves no two hyphens in a row. */
  lemma {:induction false} CollapseGivesSlugText(s: string)
    requires forall i :: 0 <= i < |s| ==> IsAlphaNumeric(s[i]) || s[i] == '-'
    ensures IsSlugText(Collapse(s))
  {
    if s != [] {
      var front := s[..|s| - 1];
      CollapseGivesSlugText(front);
      assert s == front + [s[|s| - 1]];
      CollapseAppend(front, s[|s| - 1]);
    }
  }

  /** A slug is non-empty for non-empty text and is made of lower-case letters, digits and single hyphens. */
  lemma SlugShape(s: string)
    ensures var r := Slug(s);
      && AllIdChars(r)
      && (forall i :: 0 <= i < |r| - 1 ==> !(r[i] == '-' && r[i + 1] == '-'))
  {
    CollapseGivesSlugText(Hyphenate(s));
  }

  /** The chain applied to the parent path: slash runs, then other characters, become hyphens; runs collapsed; lower case. */
  function ParentSlug(s: string): string {
    LowerAll(Collapse(KeepHyphenate(SlashRuns(s))))
  }

  lemma HyphenateAppend(x: string, c: char)
    ensures Hyphenate(x + [c]) == Hyphenate(x) + [Hyphen(c)]
  {
    assert (x + [c])[..|x|] == x;
  }

  lemma CollapseAppend(x: string, c: char)
    ensures Collapse(x + [c]) == if c == '-' && x != [] && x[|x| - 1] == '-' then Collapse(x) else Collapse(x) + [c]
  {
    assert (x + [c])[..|x|] == x;
  }

  /** Two texts that collapse alike and end alike still collapse alike once the same character is appended. */
  lemma CollapseAppendAlike(x: string, y: string, h: char)
    requires Collapse(x) == Collapse(y) && (x == [] <==> y == [])
    requires x != [] ==> x[|x| - 1] == y[|y| - 1]
    ensures Collapse(x + [h]) == Collapse(y + [h])
  {
    CollapseAppend(x, h);
    CollapseAppend(y, h);
  }

  /** Turning slash runs into single hyphens first changes nothing once hyphen runs are collapsed. */
  lemma {:induction false} RunsCollapseAlike(s: string)
    ensures Collapse(Hyphenate(SlashRuns(s))) == Collapse(Hyphenate(s))
    ensures s != [] ==> Hyphenate(SlashRuns(s))[|SlashRuns(s)| - 1] == Hyphen(s[|s| - 1])
  {
    if s != [] {
      var front := s[..|s| - 1];
      var c := s[|s| - 1];
      assert s == front + [c];
      RunsCollapseAlike(front);
      HyphenateAppend(front, c);
      if c == '/' && front != [] && front[|front| - 1] == '/' {
        RunsStep(front, c);
      } else {
        RunsKeep(front, c);
      }
    }
  }

  /** A slash after a slash: the slash runs stay as they were, and the extra hyphen collapses away. */
  lemma RunsStep(front: string, c: char)
    requires c == '/' && front != [] && front[|front| - 1] == '/'
    ensures SlashRuns(front + [c]) == SlashRuns(front)
    ensures Collapse(Hyphenate(front) + [Hyphen(c)]) == Collapse(Hyphenate(front))
  {
    assert (front + [c])[..|front|] == front;
    HyphenAfterSlash(front);
  }

  lemma HyphenAfterSlash(front: string)
    requires front != [] && front[|front| - 1] == '/'
    ensures Collapse(Hyphenate(front) + ['-']) == Collapse(Hyphenate(front))
  {
    var y := Hyphenate(front);
    assert y[|y| - 1] == '-';
    CollapseAppend(y, '-');
  }

  /** Any other character: the slash runs gain one character, which the hyphens turn into the same hyphen or character. */
  lemma RunsKeep(front: string, c: char)
    requires !(c == '/' && front != [] && front[|front| - 1] == '/')
    requires Collapse(Hyphenate(SlashRuns(front))) == Collapse(Hyphenate(front))
    requires front != [] ==> Hyphenate(SlashRuns(front))[|SlashRuns(front)| - 1] == Hyphen(front[|front| - 1])
    ensures Hyphenate(SlashRuns(front + [c])) == Hyphenate(SlashRuns(front)) + [Hyphen(c)]
    ensures Collapse(Hyphenate(SlashRuns(front + [c]))) == Collapse(Hyphenate(front) + [Hyphen(c)])
  {
    var c' := if c == '/' then '-' else c;
    SlashRunsKeep(front, c);
    HyphenateAppend(SlashRuns(front), c');
    assert Hyphen(c') == Hyphen(c);
    CollapseAppendAlike(Hyphenate(SlashRuns(front)), Hyphenate(front), Hyphen(c));
  }

  lemma SlashRunsKeep(front: string, c: char)
    requires !(c == '/' && front != [] && front[|front| - 1] == '/')
    ensures SlashRuns(front + [c]) == SlashRuns(front) + [if c == '/' then '-' else c]
  {
    assert (front + [c])[..|front|] == front;
  }

  /** The parent path and the file name go through the same slug, whatever the order of the parent's replacements. */
  lemma ParentSlugIsSlug(s: string)
    ensures ParentSlug(s) == Slug(s)
  {
    RunsCollapseAlike(s);
    var r := SlashRuns(s);
    assert KeepHyphenate(r) == Hyphenate(r);
  }

  /**
   * The last steps of the id: the slugged parent path, if any, in front of
   * the slugged file stem with a hyphen between; "index" or nothing at all
   * becomes `home`.
   */
  function JoinId(parent: string, stem: string): (id: string)
    ensures |id| > 0 && id != "index"
  {
    var file := Slug(stem);
    var id := if parent != [] then ParentSlug(parent) + "-" + file else file;
    if id == "index" || id == "" then "home" else id
  }

  /** The path an href leaves once backslashes are slashes and the drive prefix and leading slashes are gone. */
  function CleanPath(href: string): (p: string)
    ensures p == [] || p[0] != '/'
  {
    DropLeadingSlashes(DropDrive(Slashes(href)))
  }

  /**
   * The id `parseLinks` derives from an href: backslashes become slashes, a
   * drive prefix and leading slashes go, the file name loses its extension
   * and is slugged, a parent path is slugged and put in front with a
   * hyphen, and "index" or nothing at all is `home`.
   */
  function NodeId(href: string): (id: string)
    ensures |id| > 0 && id != "index"
  {
    var p := CleanPath(href);
    JoinId(ParentPath(p), StripExtension(FileName(p)))
  }

  lemma JoinIdShape(parent: string, stem: string)
    ensures AllIdChars(JoinId(parent, stem))
  {
    SlugShape(stem);
    if parent != [] {
      ParentSlugIsSlug(parent);
      SlugShape(parent);
      JoinIdChars(ParentSlug(parent), Slug(stem));
    }
    assert AllIdChars("home");
  }

  /** Every node id is made of lower-case ASCII letters, digits and hyphens. */
  lemma NodeIdShape(href: string)
    ensures AllIdChars(NodeId(href))
  {
    var p := CleanPath(href);
    JoinIdShape(ParentPath(p), StripExtension(FileName(p)));
  }

  // ---------------------------------------------------------------------------
  // What the id does not depend on
  // ---------------------------------------------------------------------------

  /** A parent path is put in front of the file's slug as its own slug and a hyphen. */
  lemma JoinIdParts(parent: string, stem: string)
    requires parent != []
    ensures JoinId(parent, stem) == Slug(parent) + "-" + Slug(stem)
  {
    ParentSlugIsSlug(parent);
    HyphenJoinNotIndex(Slug(parent), Slug(stem));
  }

  lemma HyphenJoinNotIndex(a: string, b: string)
    ensures a + "-" + b != "index" && a + "-" + b != ""
  {
    var id := a + "-" + b;
    assert id[|a|] == '-';
    if |id| == 5 {
      assert "index"[|a|] != '-';
    }
  }

  lemma SlashesAppend(a: string, b: string)
    ensures Slashes(a + b) == Slashes(a) + Slashes(b)
  {
    assert forall i :: 0 <= i < |a + b| ==> Slashes(a + b)[i] == (Slashes(a) + Slashes(b))[i];
  }

  lemma {:induction false} LeadingSlashesAppend(d: string, t: string)
    requires t != [] && t[0] != '/'
    ensures LeadingSlashes(d + t) == LeadingSlashes(d)
  {
    if d != [] && d[0] == '/' {
      assert (d + t)[1..] == d[1..] + t;
      LeadingSlashesAppend(d[1..], t);
    }
  }

  lemma LastIndexOfAppend(p: string, t: string, c: char)
    requires c !in t
    ensures LastIndexOf(p + t, c) == LastIndexOf(p, c)
  {
    assert forall k :: |p| <= k < |p + t| ==> (p + t)[k] == t[k - |p|];
    assert forall k :: 0 <= k < |p| ==> (p + t)[k] == p[k];
  }

  /** Backslashes, drive and leading slashes dealt with, an extension after the path stays as it was. */
  lemma CleanPathExtension(href: string, t: string)
    requires t != [] && t[0] == '.' && '\\' !in t
    ensures CleanPath(href + t) == CleanPath(href) + t
  {
    SlashesAppend(href, t);
    assert Slashes(t) == t;
    DropDriveExtension(Slashes(href), t);
    DropLeadingSlashesExtension(DropDrive(Slashes(href)), t);
  }

  lemma DropDriveExtension(s: string, t: string)
    requires t != [] && t[0] == '.'
    ensures DropDrive(s + t) == DropDrive(s) + t
  {
    if HasDrivePrefix(s) {
      assert (s + t)[3..] == s[3..] + t;
    }
  }

  lemma DropLeadingSlashesExtension(d: string, t: string)
    requires t != [] && t[0] == '.'
    ensures DropLeadingSlashes(d + t) == DropLeadingSlashes(d) + t
  {
    LeadingSlashesAppend(d, t);
    assert (d + t)[LeadingSlashes(d)..] == d[LeadingSlashes(d)..] + t;
  }

  lemma StripExtensionAppend(name: string, ext: string)
    requires ext != [] && '.' !in ext && '/' !in ext
    ensures StripExtension(name + "." + ext) == name
  {
    var f := name + "." + ext;
    LastIndexOfAppend(name + ".", ext, '.');
    assert f[|name| + 1..] == ext;
    assert f[..|name|] == name;
  }

  /** Appending text with no slash to a path keeps its parent path and extends its file name. */
  lemma PathPartsAppend(p: string, t: string)
    requires '/' !in t
    ensures ParentPath(p + t) == ParentPath(p)
    ensures FileName(p + t) == FileName(p) + t
  {
    LastIndexOfAppend(p, t, '/');
    var k := LastIndexOf(p, '/');
    assert (p + t)[k + 1..] == p[k + 1..] + t;
    if k >= 0 {
      assert (p + t)[..k] == p[..k];
    }
  }

  lemma DotExtension(ext: string)
    requires '/' !in ext && '\\' !in ext
    ensures var t := "." + ext; t != [] && t[0] == '.' && '/' !in t && '\\' !in t
  {
  }

  lemma PathExtensionParts(p: string, ext: string)
    requires ext != [] && '.' !in ext && '/' !in ext && '\\' !in ext
    ensures ParentPath(p + ("." + ext)) == ParentPath(p)
    ensures StripExtension(FileName(p + ("." + ext))) == FileName(p)
  {
    DotExtension(ext);
    PathPartsAppend(p, "." + ext);
    StripExtensionAppend(FileName(p), ext);
    assert FileName(p) + "." + ext == FileName(p) + ("." + ext);
  }

  /**
   * A final extension is dropped with its dot and nothing else: the id of
   * `href` plus `.ext` slugs the whole file name of `href`.
   */
  lemma ExtensionDropped(href: string, ext: string)
    requires ext != [] && '.' !in ext && '/' !in ext && '\\' !in ext
    ensures NodeId(href + "." + ext) == JoinId(ParentPath(CleanPath(href)), FileName(CleanPath(href)))
  {
    DotExtension(ext);
    assert href + "." + ext == href + ("." + ext);
    CleanPathExtension(href, "." + ext);
    PathExtensionParts(CleanPath(href), ext);
  }

  /** So for a file name without a dot, `name` and `name.ext` give the same id. */
  lemma ExtensionIgnored(href: string, ext: string)
    requires ext != [] && '.' !in ext && '/' !in ext && '\\' !in ext
    requires '.' !in FileName(CleanPath(href))
    ensures NodeId(href + "." + ext) == NodeId(href)
  {
    ExtensionDropped(href, ext);
    var f := FileName(CleanPath(href));
    assert LastIndexOf(f, '.') < 0;
  }

  lemma CleanPathDrive(letter: char, sep: char, rest: string)
    requires IsAsciiLetter(letter) && (sep == '/' || sep == '\\')
    requires !HasDrivePrefix(Slashes(rest))
    ensures CleanPath([letter, ':', sep] + rest) == CleanPath(rest)
  {
    SlashesAppend([letter, ':', sep], rest);
    var s := Slashes([letter, ':', sep] + rest);
    assert s[3..] == Slashes(rest);
  }

  /** A drive prefix such as `C:/` or `C:\\` does not change the id. */
  lemma DriveIgnored(letter: char, sep: char, rest: string)
    requires IsAsciiLetter(letter) && (sep == '/' || sep == '\\')
    requires !HasDrivePrefix(Slashes(rest))
    ensures NodeId([letter, ':', sep] + rest) == NodeId(rest)
  {
    CleanPathDrive(letter, sep, rest);
  }

  lemma DropLeadingSlashesCons(s: string)
    ensures DropLeadingSlashes(['/'] + s) == DropLeadingSlashes(s)
  {
    assert (['/'] + s)[1..] == s;
    assert (['/'] + s)[1 + LeadingSlashes(s)..] == s[LeadingSlashes(s)..];
  }

  lemma SlashesCons(sep: char, rest: string)
    requires sep == '/' || sep == '\\'
    ensures Slashes([sep] + rest) == ['/'] + Slashes(rest)
  {
    SlashesAppend([sep], rest);
    assert Slashes([sep]) == ['/'];
  }

  lemma DropDriveSlash(s: string)
    ensures DropDrive(['/'] + s) == ['/'] + s
  {
  }

  lemma CleanPathSeparator(sep: char, rest: string)
    requires sep == '/' || sep == '\\'
    requires !HasDrivePrefix(Slashes(rest))
    ensures CleanPath([sep] + rest) == CleanPath(rest)
  {
    SlashesCons(sep, rest);
    var s := Slashes(rest);
    DropDriveSlash(s);
    DropLeadingSlashesCons(s);
  }

  /** A leading slash or backslash does not change the id. */
  lemma LeadingSeparatorIgnored(sep: char, rest: string)
    requires sep == '/' || sep == '\\'
    requires !HasDrivePrefix(Slashes(rest))
    ensures NodeId([sep] + rest) == NodeId(rest)
  {
    CleanPathSeparator(sep, rest);
  }

  /** A Windows path and the same path written with slashes give the same id. */
  lemma BackslashesAsSlashes(href: string)
    ensures NodeId(Slashes(href)) == NodeId(href)
  {
    CleanPathSlashes(href);
  }

  lemma CleanPathSlashes(href: string)
    ensures CleanPath(Slashes(href)) == CleanPath(href)
  {
    var s := Slashes(href);
    assert forall i :: 0 <= i < |s| ==> Slashes(s)[i] == s[i];
    assert Slashes(s) == s;
  }
}
