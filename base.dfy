/** Shared tool vocabulary: the configured extension allow-sets, file-name validation and
    sanitising, the result envelope every tool returns, and how a tool stores its paths. */
module Base {
  import opened Wrappers
  import opened Strings
  import opened Paths

  /** JSON values as the tools put them into their result dictionaries. */
  datatype Json =
    | JNull
    | JBool(b: bool)
    | JInt(i: int)
    | JStr(s: string)
    | JList(items: seq<Json>)
    | JObject(fields: map<string, Json>)

  /** A list of integers as JSON. */
  function IntList(xs: seq<int>): (j: Json)
    ensures j.JList? && |j.items| == |xs|
    ensures forall k :: 0 <= k < |xs| ==> j.items[k] == JInt(xs[k])
  {
    JList(seq(|xs|, k requires 0 <= k < |xs| => JInt(xs[k])))
  }

  /** A list of texts as JSON. */
  function StrList(xs: seq<string>): (j: Json)
    ensures j.JList? && |j.items| == |xs|
    ensures forall k :: 0 <= k < |xs| ==> j.items[k] == JStr(xs[k])
  {
    JList(seq(|xs|, k requires 0 <= k < |xs| => JStr(xs[k])))
  }

  /** An optional text as JSON: `None` becomes `null`. */
  function OptionalStr(o: Option<string>): (j: Json)
    ensures j == JNull <==> o.None?
    ensures o.Some? ==> j == JStr(o.value)
  {
    match o
    case None => JNull
    case Some(s) => JStr(s)
  }

  const AllowedImageExtensions: set<string> := {"png", "jpg", "jpeg", "gif", "bmp", "tiff", "webp"}
  const AllowedVideoExtensions: set<string> := {"mp4", "avi", "mov", "wmv", "flv", "webm", "mkv"}
  const AllowedPdfExtensions: set<string> := {"pdf"}

  /** The configured folders, relative to the application package. */
  const UploadFolder: string := "app/uploads"
  const OutputFolder: string := "app/output"

  predicate IsDot(c: char) { c == '.' }

  /** `Path(filename).suffix.lower().lstrip('.')`. */
  function Extension(filename: string): (e: string)
    ensures e == [] <==> Suffix(filename) == []
    ensures Suffix(filename) != [] ==> e == Lower(Suffix(filename)[1..])
  {
    var sfx := Suffix(filename);
    LstripDotOfSuffix(sfx);
    StripStart(Lower(sfx), IsDot)
  }

  /** A suffix loses exactly its one leading dot. */
  lemma LstripDotOfSuffix(sfx: string)
    requires sfx == [] || (|sfx| >= 2 && sfx[0] == '.' && '.' !in sfx[1..])
    ensures sfx == [] ==> StripStart(Lower(sfx), IsDot) == []
    ensures sfx != [] ==> StripStart(Lower(sfx), IsDot) == Lower(sfx[1..])
  {
    if sfx != [] {
      var s := Lower(sfx);
      LowerSlices(sfx, 1);
      assert sfx[1] == sfx[1..][0];
      assert s[0] == '.' && s[1] != '.';
      StripOneDot(s);
    }
  }

  lemma StripOneDot(s: string)
    requires |s| >= 2 && s[0] == '.' && s[1] != '.'
    ensures StripStart(s, IsDot) == s[1..]
  {
    assert s[1..][0] == s[1];
    assert StripStart(s[1..], IsDot) == s[1..];
  }

  /** `FileValidator.is_allowed_extension`. */
  predicate IsAllowedExtension(filename: string, allowed: set<string>)
    ensures IsAllowedExtension(filename, allowed) && "" !in allowed ==> Suffix(filename) != []
  {
    Extension(filename) in allowed
  }

  /** A file name whose final component is `base.ext` (non-empty base, dot-free extension)
      has the extension `ext` in lower case. */
  lemma ExtensionOfDottedName(filename: string, base: string, ext: string)
    requires Name(filename) == base + "." + ext
    requires base != [] && ext != [] && '.' !in ext
    ensures Extension(filename) == Lower(ext)
  {
    SuffixOfDottedName(filename, base, ext);
    assert ("." + ext)[1..] == ext;
  }

  /** Such a name is accepted exactly when the lower-cased extension is in the set. */
  lemma AllowedDottedName(filename: string, base: string, ext: string, allowed: set<string>)
    requires Name(filename) == base + "." + ext
    requires base != [] && ext != [] && '.' !in ext
    ensures IsAllowedExtension(filename, allowed) <==> Lower(ext) in allowed
  {
    ExtensionOfDottedName(filename, base, ext);
  }

  /** An image name with an upper-case ".JPG" extension is accepted. */
  lemma UpperCaseImageAccepted(name: string)
    requires name != [] && '/' !in name
    ensures IsAllowedExtension(name + ".JPG", AllowedImageExtensions)
  {
    var f, ext := name + ".JPG", "JPG";
    assert Name(f) == name + "." + ext by {
      JpgName(name);
    }
    assert ext != [] && '.' !in ext && Lower(ext) in AllowedImageExtensions by {
      JpgAllowed();
    }
    AllowedDottedName(f, name, ext, AllowedImageExtensions);
  }

  lemma JpgAllowed()
    ensures "JPG" != [] && '.' !in "JPG" && Lower("JPG") in AllowedImageExtensions
  {
    LowerJpg();
  }

  lemma JpgName(name: string)
    requires '/' !in name
    ensures Name(name + ".JPG") == name + "." + "JPG"
  {
    var e := ".JPG";
    assert '/' !in e && e == "." + "JPG";
    NameOfAppended(name, e);
    PlainName(name);
  }

  lemma LowerJpg()
    ensures Lower("JPG") == "jpg"
  {
    var l := Lower("JPG");
    assert l[0] == 'j' && l[1] == 'p' && l[2] == 'g';
  }

  /** A name without a suffix has the empty extension, which no configured allow-set holds. */
  lemma NoSuffixRejected(filename: string)
    requires Suffix(filename) == []
    ensures !IsAllowedExtension(filename, AllowedImageExtensions)
    ensures !IsAllowedExtension(filename, AllowedVideoExtensions)
    ensures !IsAllowedExtension(filename, AllowedPdfExtensions)
  {
    assert Extension(filename) == [];
    EmptyExtensionNotAllowed();
  }

  lemma EmptyExtensionNotAllowed()
    ensures "" !in AllowedImageExtensions && "" !in AllowedVideoExtensions && "" !in AllowedPdfExtensions
  {
  }

  /** The check ignores letter case: `name.lower()` is accepted exactly when `name` is. */
  lemma AllowedIgnoresCase(filename: string, allowed: set<string>)
    ensures IsAllowedExtension(Lower(filename), allowed) <==> IsAllowedExtension(filename, allowed)
  {
    SuffixOfLower(filename);
    LowerTwice(Suffix(filename));
  }

  /** Characters `get_safe_filename` replaces by '_'. */
  predicate IsUnsafe(c: char) {
    c == '<' || c == '>' || c == ':' || c == '"' || c == '/' || c == '\\' || c == '|' || c == '?' || c == '*'
  }

  predicate IsUnderscore(c: char) { c == '_' }

  /** Neither unsafe nor the underscore: the characters sanitising must keep. */
  predicate IsKept(c: char) { !IsUnsafe(c) && c != '_' }

  predicate NoUnsafe(s: string) {
    forall i :: 0 <= i < |s| ==> !IsUnsafe(s[i])
  }

  predicate NoDoubleUnderscore(s: string) {
    forall i :: 0 <= i < |s| - 1 ==> !(s[i] == '_' && s[i + 1] == '_')
  }

  /** `re.sub(r'[<>:"/\\|?*]', '_', s)`. */
  function ReplaceUnsafe(s: string): (r: string)
    ensures |r| == |s|
    ensures forall i :: 0 <= i < |s| ==> r[i] == if IsUnsafe(s[i]) then '_' else s[i]
  {
    seq(|s|, i requires 0 <= i < |s| => if IsUnsafe(s[i]) then '_' else s[i])
  }

  /** `re.sub(r'_+', '_', s)`: every run of underscores becomes one. */
  function CollapseUnderscores(s: string): (r: string)
    ensures |r| <= |s|
    ensures s != [] ==> r != [] && r[0] == s[0] && r[|r| - 1] == s[|s| - 1]
    decreases |s|
  {
    if |s| < 2 then s
    else if s[0] == '_' && s[1] == '_' then CollapseUnderscores(s[1..])
    else [s[0]] + CollapseUnderscores(s[1..])
  }

  /** The characters of `s` in order, leaving out every '_' that directly follows another '_':
      a reference reading of collapsing, one character at a time. */
  function Collapsed(s: string): string
    decreases |s|
  {
    if s == [] then []
    else Collapsed(s[..|s| - 1]) + (if |s| >= 2 && s[|s| - 2] == '_' && s[|s| - 1] == '_' then [] else [s[|s| - 1]])
  }

  /** Putting a character in front: it is left out only where it is a '_' before another '_'. */
  lemma {:induction false} CollapsedCons(c: char, t: string)
    ensures Collapsed([c] + t) == (if c == '_' && t != [] && t[0] == '_' then [] else [c]) + Collapsed(t)
    decreases |t|
  {
    var u := [c] + t;
    if t == [] {
      assert Collapsed(u) == Collapsed([]) + [c];
    } else if |t| == 1 {
      assert u[..1] == [c];
      assert Collapsed([c]) == Collapsed([]) + [c];
      assert Collapsed(t) == Collapsed([]) + [t[0]];
    } else {
      var init := t[..|t| - 1];
      assert u[..|u| - 1] == [c] + init;
      CollapsedCons(c, init);
      assert u[|u| - 2] == t[|t| - 2] && u[|u| - 1] == t[|t| - 1];
    }
  }

  /** One more character: it is left out exactly when it is a '_' after a '_'. */
  lemma CollapsedPrefix(s: string, k: nat)
    requires k < |s|
    ensures Collapsed(s[..k + 1]) ==
            Collapsed(s[..k]) + (if k >= 1 && s[k - 1] == '_' && s[k] == '_' then [] else [s[k]])
  {
    assert s[..k + 1][..k] == s[..k];
  }

  /** A text without "__" has nothing to collapse. */
  lemma {:induction false} CollapsedUnchanged(s: string)
    requires NoDoubleUnderscore(s)
    ensures Collapsed(s) == s
    decreases |s|
  {
    if s != [] {
      var init := s[..|s| - 1];
      assert NoDoubleUnderscore(init) by {
        forall i | 0 <= i < |init| - 1 ensures !(init[i] == '_' && init[i + 1] == '_') {
          assert init[i] == s[i] && init[i + 1] == s[i + 1];
        }
      }
      CollapsedUnchanged(init);
      if |s| >= 2 {
        assert !(s[|s| - 2] == '_' && s[|s| - 1] == '_');
      }
      assert s == init + [s[|s| - 1]];
    }
  }

  /** Collapsing runs of '_' keeps exactly the characters the reference reading keeps. */
  lemma {:induction false} CollapseIsCollapsed(s: string)
    ensures CollapseUnderscores(s) == Collapsed(s)
    decreases |s|
  {
    if |s| == 1 {
      assert Collapsed(s) == Collapsed([]) + [s[0]];
    } else if |s| >= 2 {
      CollapseIsCollapsed(s[1..]);
      assert s == [s[0]] + s[1..];
      CollapsedCons(s[0], s[1..]);
    }
  }

  /** After collapsing no two underscores are adjacent, and no unsafe character appears. */
  lemma {:induction false} CollapseShape(s: string)
    ensures NoDoubleUnderscore(CollapseUnderscores(s))
    ensures NoUnsafe(s) ==> NoUnsafe(CollapseUnderscores(s))
    decreases |s|
  {
    if |s| >= 2 {
      CollapseShape(s[1..]);
      var r := CollapseUnderscores(s[1..]);
      if !(s[0] == '_' && s[1] == '_') {
        assert CollapseUnderscores(s) == [s[0]] + r;
        assert r[0] == s[1];
      }
    }
  }

  /** `FileValidator.get_safe_filename`: unsafe characters become '_', runs of '_' shrink to
      one, and leading and trailing '_' are dropped. */
  function SafeFilename(s: string): (r: string)
    ensures NoUnsafe(r)
    ensures NoDoubleUnderscore(r)
    ensures r == [] || (r[0] != '_' && r[|r| - 1] != '_')
  {
    var t := CollapseUnderscores(ReplaceUnsafe(s));
    CollapseShape(ReplaceUnsafe(s));
    StripKeepsShape(t);
    Strip(t, IsUnderscore)
  }

  /** Stripping takes a slice, so it keeps both properties. */
  lemma StripKeepsShape(t: string)
    requires NoUnsafe(t) && NoDoubleUnderscore(t)
    ensures NoUnsafe(Strip(t, IsUnderscore)) && NoDoubleUnderscore(Strip(t, IsUnderscore))
  {
    var k := StripSlice(t, IsUnderscore);
    var r := Strip(t, IsUnderscore);
    assert forall i :: 0 <= i < |r| ==> r[i] == t[k + i];
  }

  /** The characters that are neither unsafe nor '_', in order. */
  function Kept(s: string): (r: string)
    ensures forall c :: c in r ==> IsKept(c)
    decreases |s|
  {
    if s == [] then [] else (if IsKept(s[0]) then [s[0]] else []) + Kept(s[1..])
  }

  lemma {:induction false} KeptAppend(a: string, b: string)
    ensures Kept(a + b) == Kept(a) + Kept(b)
    decreases |a|
  {
    if a != [] {
      var head := if IsKept(a[0]) then [a[0]] else [];
      assert (a + b)[0] == a[0];
      assert (a + b)[1..] == a[1..] + b;
      KeptAppend(a[1..], b);
      calc {
        Kept(a + b);
        head + Kept(a[1..] + b);
        head + (Kept(a[1..]) + Kept(b));
        (head + Kept(a[1..])) + Kept(b);
        Kept(a) + Kept(b);
      }
    } else {
      assert a + b == b;
    }
  }

  lemma {:induction false} KeptOfUnderscores(s: string)
    requires forall i :: 0 <= i < |s| ==> s[i] == '_'
    ensures Kept(s) == []
    decreases |s|
  {
    if s != [] {
      KeptOfUnderscores(s[1..]);
    }
  }

  lemma {:induction false} KeptReplaceUnsafe(s: string)
    ensures Kept(ReplaceUnsafe(s)) == Kept(s)
    decreases |s|
  {
    if s != [] {
      assert ReplaceUnsafe(s)[1..] == ReplaceUnsafe(s[1..]);
      KeptReplaceUnsafe(s[1..]);
    }
  }

  lemma {:induction false} KeptCollapse(s: string)
    ensures Kept(CollapseUnderscores(s)) == Kept(s)
    decreases |s|
  {
    if |s| >= 2 {
      KeptCollapse(s[1..]);
    }
  }

  /** Stripping '_' drops only underscores. */
  lemma KeptStrip(t: string)
    ensures Kept(Strip(t, IsUnderscore)) == Kept(t)
  {
    KeptStripStart(t);
    KeptStripEnd(StripStart(t, IsUnderscore));
  }

  lemma KeptStripStart(t: string)
    ensures Kept(StripStart(t, IsUnderscore)) == Kept(t)
  {
    var u := StripStart(t, IsUnderscore);
    var front := t[..|t| - |u|];
    assert t == front + u;
    forall i | 0 <= i < |front| ensures front[i] == '_' {
      assert IsUnderscore(t[i]);
    }
    KeptOfUnderscores(front);
    KeptAppend(front, u);
  }

  lemma KeptStripEnd(u: string)
    ensures Kept(StripEnd(u, IsUnderscore)) == Kept(u)
  {
    var r := StripEnd(u, IsUnderscore);
    var back := u[|r|..];
    assert u == r + back;
    forall i | 0 <= i < |back| ensures back[i] == '_' {
      assert IsUnderscore(u[|r| + i]);
    }
    KeptOfUnderscores(back);
    KeptAppend(r, back);
    assert Kept(r) + [] == Kept(r);
  }

  /** Sanitising keeps every character that is neither unsafe nor '_', in its original order. */
  lemma SafeFilenameKeeps(s: string)
    ensures Kept(SafeFilename(s)) == Kept(s)
  {
    KeptReplaceUnsafe(s);
    KeptCollapse(ReplaceUnsafe(s));
    KeptStrip(CollapseUnderscores(ReplaceUnsafe(s)));
  }

  /** Text with no unsafe character, no "__" and no '_' at either end is left alone. */
  lemma SafeFilenameFixes(s: string)
    requires NoUnsafe(s)
    requires NoDoubleUnderscore(s)
    requires s == [] || (s[0] != '_' && s[|s| - 1] != '_')
    ensures SafeFilename(s) == s
  {
    assert ReplaceUnsafe(s) == s;
    CollapseNoDouble(s);
    StripUnchanged(s, IsUnderscore);
  }

  lemma {:induction false} CollapseNoDouble(s: string)
    requires NoDoubleUnderscore(s)
    ensures CollapseUnderscores(s) == s
    decreases |s|
  {
    if |s| >= 2 {
      CollapseNoDouble(s[1..]);
    }
  }

  /** Sanitising twice is sanitising once. */
  lemma SafeFilenameIdempotent(s: string)
    ensures SafeFilename(SafeFilename(s)) == SafeFilename(s)
  {
    SafeFilenameFixes(SafeFilename(s));
  }

  /** `get_safe_filename("a//b??c.png")` is "a_b_c.png": each run of unsafe characters ends up
      as a single '_'. The name is a parameter so that the definitions unfold step by step. */
  lemma SafeFilenameExample(name: string)
    requires name == "a//b??c.png"
    ensures SafeFilename(name) == "a_b_c.png"
  {
    var t := ReplaceUnsafe(name);
    assert ExampleReplaced(t);
    CollapseIsCollapsed(t);
    CollapsedExample(t);
    StripUnchanged("a_b_c.png", IsUnderscore);
  }

  /** The characters of "a__b__c.png", one by one. */
  predicate ExampleReplaced(t: string) {
    |t| == 11 && t[0] == 'a' && t[1] == '_' && t[2] == '_' && t[3] == 'b' && t[4] == '_' && t[5] == '_' &&
    t[6] == 'c' && t[7] == '.' && t[8] == 'p' && t[9] == 'n' && t[10] == 'g'
  }

  lemma CollapsedExample(t: string)
    requires ExampleReplaced(t)
    ensures Collapsed(t) == "a_b_c.png"
  {
    CollapsedExampleMiddle(t);
    assert Collapsed(t[..9]) == "a_b_c.p" by { CollapsedPrefix(t, 8); }
    assert Collapsed(t[..10]) == "a_b_c.pn" by { CollapsedPrefix(t, 9); }
    assert Collapsed(t[..11]) == "a_b_c.png" by { CollapsedPrefix(t, 10); }
    assert t[..11] == t;
  }

  lemma CollapsedExampleMiddle(t: string)
    requires ExampleReplaced(t)
    ensures Collapsed(t[..8]) == "a_b_c."
  {
    CollapsedExampleFront(t);
    assert Collapsed(t[..5]) == "a_b_" by { CollapsedPrefix(t, 4); }
    assert Collapsed(t[..6]) == "a_b_" by { CollapsedPrefix(t, 5); }
    assert Collapsed(t[..7]) == "a_b_c" by { CollapsedPrefix(t, 6); }
    assert Collapsed(t[..8]) == "a_b_c." by { CollapsedPrefix(t, 7); }
  }

  lemma CollapsedExampleFront(t: string)
    requires ExampleReplaced(t)
    ensures Collapsed(t[..4]) == "a_b"
  {
    assert Collapsed(t[..1]) == "a" by { CollapsedPrefix(t, 0); }
    assert Collapsed(t[..2]) == "a_" by { CollapsedPrefix(t, 1); }
    assert Collapsed(t[..3]) == "a_" by { CollapsedPrefix(t, 2); }
    assert Collapsed(t[..4]) == "a_b" by { CollapsedPrefix(t, 3); }
  }

  /** Lower-casing twice is lower-casing once. */
  lemma LowerTwice(s: string)
    ensures Lower(Lower(s)) == Lower(s)
  {
  }

  /** `ProcessingResult`: what a tool reports, before `to_dict`. */
  datatype ProcessingResult = ProcessingResult(
    success: bool,
    message: string,
    outputPath: Option<string> := None,
    outputUrl: Option<string> := None,
    metadata: Option<map<string, Json>> := None)
  {
    /** `to_dict()`: exactly five keys; absent paths and URLs become `null` and absent
        metadata becomes `{}`. */
    function ToDict(): (d: map<string, Json>)
      ensures d.Keys == EnvelopeKeys
      ensures d["success"] == JBool(success) && d["message"] == JStr(message)
      ensures d["output_path"] == JNull <==> outputPath.None?
      ensures d["output_url"] == JNull <==> outputUrl.None?
      ensures outputPath.Some? ==> d["output_path"] == JStr(outputPath.value)
      ensures outputUrl.Some? ==> d["output_url"] == JStr(outputUrl.value)
      ensures d["metadata"].JObject?
      ensures metadata.None? ==> d["metadata"] == JObject(map[])
      ensures metadata.Some? ==> d["metadata"] == JObject(metadata.value)
    {
      map["success" := JBool(success),
          "message" := JStr(message),
          "output_path" := OptionalStr(outputPath),
          "output_url" := OptionalStr(outputUrl),
          "metadata" := JObject(metadata.GetOr(map[]))]
    }
  }

  const EnvelopeKeys: set<string> := {"success", "message", "output_path", "output_url", "metadata"}

  /** `result.get('success')` read as a truth value. */
  predicate Succeeded(d: map<string, Json>) {
    "success" in d && d["success"] == JBool(true)
  }

  /** The envelope reports success exactly when the result does. */
  lemma ToDictSucceeded(r: ProcessingResult)
    ensures Succeeded(r.ToDict()) <==> r.success
  {
  }

  /** A failure result: `ProcessingResult(False, message).to_dict()`. */
  function Failure(message: string): (d: map<string, Json>)
    ensures !Succeeded(d) && "message" in d && d["message"] == JStr(message)
  {
    ProcessingResult(false, message).ToDict()
  }

  /** `_build_output_url`: the public URL depends on the final component only. The URL scheme
      itself (`url_for` with an external host) is a parameter. */
  function OutputUrl(urlFor: string -> string, path: string): (url: string)
    ensures '/' !in path ==> url == urlFor(path)
  {
    if '/' !in path then PlainName(path); urlFor(path) else urlFor(Name(path))
  }

  /** Only the file name reaches `url_for`: the folder an output sits in does not change its URL. */
  lemma OutputUrlIgnoresFolder(urlFor: string -> string, folder: string, name: string)
    requires '/' !in name
    ensures OutputUrl(urlFor, folder + "/" + name) == urlFor(name)
  {
    NameAfterParent(folder + "/", name);
  }

  /** `Path(p) if p else None`: an absent or empty path is stored as no path. */
  function StoredPath(p: Option<string>): (r: Option<string>)
    ensures r != Some("")
    ensures r.None? <==> (p.None? || p.value == "")
    ensures r.Some? ==> r == p
  {
    if p.None? || p.value == "" then None else p
  }

  /** The paths a tool works on, as `ToolBase.__init__` stores them. The input file's
      existence and readability checks are not part of this model. */
  class ToolBase {
    const inputPath: string
    const outputPath: Option<string>

    constructor (inputPath: string, outputPath: Option<string>)
      ensures this.inputPath == inputPath
      ensures this.outputPath == StoredPath(outputPath)
    {
      this.inputPath := inputPath;
      this.outputPath := StoredPath(outputPath);
    }
  }
}
