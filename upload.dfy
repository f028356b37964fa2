/** The upload middleware: the stored file name, the file filter and the size limit. */
module Upload {
  import opened Common
  import opened Strings

  /** The name with its trailing slashes dropped, as `path.extname` skips them. */
  function StripTrailingSlashes(s: string): (r: string)
    ensures |r| <= |s| && r == s[..|r|]
    ensures r == [] || r[|r| - 1] != '/'
    ensures forall j :: |r| <= j < |s| ==> s[j] == '/'
  {
    if s != [] && s[|s| - 1] == '/' then StripTrailingSlashes(s[..|s| - 1]) else s
  }

  /** The last path segment. */
  function Basename(s: string): string
  {
    var t := StripTrailingSlashes(s);
    match LastIndexOf(t, '/')
    case None => t
    case Some(k) => t[k + 1..]
  }

  lemma BasenameNoSlash(s: string)
    ensures '/' !in Basename(s)
  {
    var t := StripTrailingSlashes(s);
    var k := LastIndexOf(t, '/');
    if k.Some? {
      var r := t[k.value + 1..];
      forall j | 0 <= j < |r| ensures r[j] != '/' {
        assert r[j] == t[k.value + 1 + j];
      }
    }
  }

  /** Node's posix `path.extname`: from the last dot of the last segment to its end;
      empty when there is no dot, when the dot opens the segment, or for "..". */
  function Extname(p: string): string
  {
    var b := Basename(p);
    match LastIndexOf(b, '.')
    case None => ""
    case Some(d) => if d == 0 || b == ".." then "" else b[d..]
  }

  /** An extension is empty, or one dot followed by text with no dot and no slash. */
  lemma ExtnameShape(p: string)
    ensures var r := Extname(p);
      r == [] || (r[0] == '.' && '.' !in r[1..] && '/' !in r)
  {
    var b := Basename(p);
    BasenameNoSlash(p);
    var d := LastIndexOf(b, '.');
    if d.Some? && d.value != 0 && b != ".." {
      var r := b[d.value..];
      assert forall j :: 1 <= j < |r| ==> r[j] == b[d.value + j];
    }
  }

  /** The extensions the stored file name may keep. */
  const AllowedExtensions: seq<string> := [".jpeg", ".jpg", ".png", ".webp"]

  /** The lower-cased extension if it is whitelisted, and nothing otherwise. */
  function SafeExt(originalname: Option<string>): (r: string)
    ensures r == "" || r in AllowedExtensions
    ensures r != "" ==> r == ToLower(Extname(OrElse(originalname, "")))
  {
    var ext := ToLower(Extname(OrElse(originalname, "")));
    if ext in AllowedExtensions then ext else ""
  }

  /** The stored file name: the unique prefix (time and random number, passed in)
      followed by the safe extension. */
  function Filename(originalname: Option<string>, unique: string): (r: string)
    ensures |r| >= |unique| && r[..|unique|] == unique
    ensures r[|unique|..] == "" || r[|unique|..] in AllowedExtensions
  {
    unique + SafeExt(originalname)
  }

  /** A whitelisted extension survives, lower-cased. */
  lemma FilenameKeepsAllowed(originalname: string, unique: string)
    requires ToLower(Extname(originalname)) in AllowedExtensions
    ensures Filename(Some(originalname), unique) == unique + ToLower(Extname(originalname))
  {
  }

  /** Any other extension is dropped, and the file still gets a name. */
  lemma FilenameDropsOthers(originalname: Option<string>, unique: string)
    requires ToLower(Extname(OrElse(originalname, ""))) !in AllowedExtensions
    ensures Filename(originalname, unique) == unique
  {
  }

  lemma LowerCharKeepsSeparators(c: char)
    ensures LowerChar(c) == '.' <==> c == '.'
    ensures LowerChar(c) == '/' <==> c == '/'
  {
  }

  lemma {:induction false} LowerSuffix(s: string, a: nat)
    requires a <= |s|
    ensures ToLower(s)[a..] == ToLower(s[a..])
    decreases |s|
  {
    if a < |s| {
      var init := s[..|s| - 1];
      var t := s[a..];
      LowerSuffix(init, a);
      assert t[..|t| - 1] == init[a..];
      assert t[|t| - 1] == s[|s| - 1];
      assert ToLower(t) == ToLower(init[a..]) + [LowerChar(s[|s| - 1])];
      assert ToLower(s) == ToLower(init) + [LowerChar(s[|s| - 1])];
    }
  }

  /** Lower-casing moves no dot and no slash. */
  lemma LastIndexOfLower(s: string, c: char)
    requires c == '.' || c == '/'
    ensures LastIndexOf(ToLower(s), c) == LastIndexOf(s, c)
  {
    var l := ToLower(s);
    forall j | 0 <= j < |s| ensures l[j] == c <==> s[j] == c {
      ToLowerAt(s, j);
      LowerCharKeepsSeparators(s[j]);
    }
    var x, y := LastIndexOf(l, c), LastIndexOf(s, c);
    if x.Some? && y.Some? {
      assert !(x.value < y.value) && !(y.value < x.value);
    }
  }

  lemma {:induction false} StripLower(s: string)
    ensures StripTrailingSlashes(ToLower(s)) == ToLower(StripTrailingSlashes(s))
  {
    if s != [] {
      ToLowerAt(s, |s| - 1);
      LowerCharKeepsSeparators(s[|s| - 1]);
      if s[|s| - 1] == '/' {
        assert ToLower(s)[..|s| - 1] == ToLower(s[..|s| - 1]);
        StripLower(s[..|s| - 1]);
      }
    }
  }

  lemma BasenameLower(s: string)
    ensures Basename(ToLower(s)) == ToLower(Basename(s))
  {
    var t := StripTrailingSlashes(s);
    StripLower(s);
    LastIndexOfLower(t, '/');
    var k := LastIndexOf(t, '/');
    if k.Some? {
      var base := t[k.value + 1..];
      assert Basename(s) == base;
      LowerSuffix(t, k.value + 1);
      assert Basename(ToLower(s)) == ToLower(t)[k.value + 1..] == ToLower(base);
    } else {
      assert Basename(s) == t;
      assert Basename(ToLower(s)) == ToLower(t);
    }
  }

  lemma DotDotLower(b: string)
    ensures ToLower(b) == ".." <==> b == ".."
  {
    if |b| == 2 {
      ToLowerAt(b, 0);
      ToLowerAt(b, 1);
      LowerCharKeepsSeparators(b[0]);
      LowerCharKeepsSeparators(b[1]);
      var l := ToLower(b);
      assert l == ".." <==> l[0] == '.' && l[1] == '.';
      assert b == ".." <==> b[0] == '.' && b[1] == '.';
    }
  }

  /** `path.extname` and lower-casing commute. */
  lemma ExtnameLower(p: string)
    ensures Extname(ToLower(p)) == ToLower(Extname(p))
  {
    var b := Basename(p);
    BasenameLower(p);
    LastIndexOfLower(b, '.');
    DotDotLower(b);
    var d := LastIndexOf(b, '.');
    if d.Some? && d.value != 0 && b != ".." {
      ExtnameLowerSlice(p, b, d.value);
    }
  }

  lemma ExtnameLowerSlice(p: string, b: string, d: nat)
    requires b == Basename(p) && Basename(ToLower(p)) == ToLower(b)
    requires LastIndexOf(b, '.') == Some(d) && LastIndexOf(ToLower(b), '.') == Some(d)
    requires d != 0 && b != ".." && ToLower(b) != ".."
    ensures Extname(ToLower(p)) == ToLower(Extname(p))
  {
    assert Extname(p) == b[d..];
    LowerSuffix(b, d);
    assert Extname(ToLower(p)) == ToLower(b)[d..] == ToLower(b[d..]);
  }

  /** The stored name depends only on the lower-cased original name. */
  lemma FilenameCaseInsensitive(a: string, b: string, unique: string)
    requires ToLower(a) == ToLower(b)
    ensures Filename(Some(a), unique) == Filename(Some(b), unique)
  {
    ExtnameLower(a);
    ExtnameLower(b);
  }

  /** The unanchored `/jpeg|jpg|png|webp/` test. */
  predicate MatchesAllowed(s: string)
  {
    Contains(s, "jpeg") || Contains(s, "jpg") || Contains(s, "png") || Contains(s, "webp")
  }

  const RejectMessage: string := "Only image files are allowed (jpeg,jpg,png,webp)"

  datatype Decision = Accepted | Rejected(message: string)

  /** fileFilter: the lower-cased extension and the mimetype, as given, must both match. */
  function FileFilter(originalname: string, mimetype: string): (r: Decision)
    ensures r.Rejected? ==> r.message == RejectMessage
  {
    if MatchesAllowed(ToLower(Extname(originalname))) && MatchesAllowed(mimetype) then Accepted
    else Rejected(RejectMessage)
  }

  /** Every extension the stored name keeps passes the filter's extension test. */
  lemma AllowedExtensionMatches(ext: string)
    requires ext in AllowedExtensions
    ensures MatchesAllowed(ext)
  {
    if ext == ".jpeg" { assert OccursAt(ext, "jpeg", 1); }
    else if ext == ".jpg" { assert OccursAt(ext, "jpg", 1); }
    else if ext == ".png" { assert OccursAt(ext, "png", 1); }
    else { assert OccursAt(ext, "webp", 1); }
    ContainsIff(ext, "jpeg");
    ContainsIff(ext, "jpg");
    ContainsIff(ext, "png");
    ContainsIff(ext, "webp");
  }

  /** A file the filter accepts on any image mimetype keeps its extension whenever it
      is whitelisted. */
  lemma FilterAcceptsKeptExtension(originalname: string, mimetype: string)
    requires ToLower(Extname(originalname)) in AllowedExtensions && MatchesAllowed(mimetype)
    ensures FileFilter(originalname, mimetype) == Accepted
  {
    AllowedExtensionMatches(ToLower(Extname(originalname)));
  }

  /** The extension test ignores case, as the file name does. */
  lemma FileFilterCaseInsensitive(a: string, b: string, mimetype: string)
    requires ToLower(a) == ToLower(b)
    ensures FileFilter(a, mimetype) == FileFilter(b, mimetype)
  {
    ExtnameLower(a);
    ExtnameLower(b);
  }

  /** A pattern whose first character never appears is not found. */
  lemma AbsentFirstChar(s: string, pat: string)
    requires pat != [] && pat[0] !in s
    ensures !Contains(s, pat)
  {
    forall k: nat ensures !OccursAt(s, pat, k) {
      if k + |pat| <= |s| {
        assert s[k..k + |pat|][0] == s[k];
      }
    }
    ContainsIff(s, pat);
  }

  /** The extension of a plain name followed by a dotted suffix is that suffix. */
  lemma ExtnameOfSuffix(stem: string, ext: string)
    requires stem != [] && '/' !in stem && '.' !in stem
    requires |ext| >= 2 && ext[0] == '.' && '.' !in ext[1..] && '/' !in ext
    ensures Extname(stem + ext) == ext
  {
    var name := stem + ext;
    assert name[|name| - 1] == ext[|ext| - 1];
    assert StripTrailingSlashes(name) == name;
    assert forall i :: 0 <= i < |name| ==> name[i] != '/' by {
      forall i | 0 <= i < |name| ensures name[i] != '/' {
        if i < |stem| { assert name[i] == stem[i]; } else { assert name[i] == ext[i - |stem|]; }
      }
    }
    assert Basename(name) == name;
    forall i | |stem| < i < |name| ensures name[i] != '.' {
      assert name[i] == ext[1..][i - |stem| - 1];
    }
    assert name[|stem|] == '.';
    assert LastIndexOf(name, '.') == Some(|stem|);
    assert name[|stem|..] == ext;
  }

  /** The pattern is not anchored: a ".jpgx" file passes the filter, and its stored
      name then has no extension. */
  lemma UnanchoredExtensionAccepted(stem: string, mimetype: string, unique: string)
    requires stem != [] && '/' !in stem && '.' !in stem && MatchesAllowed(mimetype)
    ensures FileFilter(stem + ".jpgx", mimetype) == Accepted
    ensures Filename(Some(stem + ".jpgx"), unique) == unique
  {
    ExtnameOfSuffix(stem, ".jpgx");
    LowerJpgx(".jpgx");
  }

  lemma LowerJpgx(ext: string)
    requires ext == ".jpgx"
    ensures ToLower(ext) == ext && ext !in AllowedExtensions && MatchesAllowed(ext)
  {
    forall i | 0 <= i < |ext| ensures ToLower(ext)[i] == ext[i] {
      ToLowerAt(ext, i);
    }
    assert OccursAt(ext, "jpg", 1);
    ContainsIff(ext, "jpg");
  }

  /** The mimetype is not lower-cased: one without lower-case letters, such as
      "IMAGE/PNG", is refused whatever the file name. */
  lemma UpperCaseMimeTypeRejected(originalname: string, mimetype: string)
    requires forall i :: 0 <= i < |mimetype| ==> !('a' <= mimetype[i] <= 'z')
    ensures FileFilter(originalname, mimetype).Rejected?
  {
    AbsentFirstChar(mimetype, "jpeg");
    AbsentFirstChar(mimetype, "jpg");
    AbsentFirstChar(mimetype, "png");
    AbsentFirstChar(mimetype, "webp");
  }

  /** Multer's `limits.fileSize`: 5 MiB. */
  const MaxFileSize: nat := 5 * 1024 * 1024

  datatype UploadOutcome = Stored(filename: string) | FilterError(message: string) | FileTooLarge

  /** One file through the middleware: the filter decides first, then the size limit
      applies while the file is written under its generated name. */
  function UploadFile(originalname: string, mimetype: string, size: nat, unique: string): (r: UploadOutcome)
    ensures r.Stored? <==> FileFilter(originalname, mimetype) == Accepted && size <= MaxFileSize
    ensures r.FileTooLarge? ==> size > 5242880
    ensures r.Stored? ==> r.filename == Filename(Some(originalname), unique)
  {
    match FileFilter(originalname, mimetype)
    case Rejected(msg) => FilterError(msg)
    case Accepted => if size > MaxFileSize then FileTooLarge else Stored(Filename(Some(originalname), unique))
  }
}
