/** The manuscript side of suggest_checklist.py: choosing the text extractor
    by the file's extension, and picking the checklist the language model's
    reply names. The file system, the extractors and the HTTP request are
    inputs: whether the file exists, what each extractor returns, and the
    reply (`None` when the request fails). */
module SuggestChecklist {
  import opened PyStr

  // ===================================================== name matching

  /** `name.lower() in response_text.lower()` */
  predicate NameOccurs(name: string, response: string)
  {
    Contains(Lower(response), Lower(name))
  }

  /** The first name, in list order, that occurs in the response. */
  function FirstMatch(names: seq<string>, response: string): Option<string>
  {
    if |names| == 0 then None
    else if NameOccurs(names[0], response) then Some(names[0])
    else FirstMatch(names[1..], response)
  }

  /** `FirstMatch` gives `None` exactly when no name occurs; otherwise a name
      of the list that occurs, and no name before it does. */
  lemma {:induction false} FirstMatchFacts(names: seq<string>, response: string)
    ensures FirstMatch(names, response).None? <==>
      forall k :: 0 <= k < |names| ==> !NameOccurs(names[k], response)
    ensures FirstMatch(names, response).Some? ==>
      exists k :: 0 <= k < |names| && names[k] == FirstMatch(names, response).value &&
        NameOccurs(names[k], response) &&
        forall j :: 0 <= j < k ==> !NameOccurs(names[j], response)
  {
    if |names| > 0 && !NameOccurs(names[0], response) {
      var rest := names[1..];
      FirstMatchFacts(rest, response);
      assert forall k :: 1 <= k < |names| ==> names[k] == rest[k - 1];
      if FirstMatch(rest, response).Some? {
        var k :| 0 <= k < |rest| && rest[k] == FirstMatch(rest, response).value &&
          NameOccurs(rest[k], response) && forall j :: 0 <= j < k ==> !NameOccurs(rest[j], response);
        assert names[k + 1] == rest[k];
        assert forall j :: 0 <= j < k + 1 ==> !NameOccurs(names[j], response) by {
          forall j | 0 <= j < k + 1 ensures !NameOccurs(names[j], response) {
            if j > 0 { assert names[j] == rest[j - 1]; }
          }
        }
      }
    } else if |names| > 0 {
      assert NameOccurs(names[0], response);
    }
  }

  /** A suggestion is one of the list's names, and the response mentions it. */
  lemma {:induction false} FirstMatchIsListed(names: seq<string>, response: string)
    ensures FirstMatch(names, response).Some? ==>
      FirstMatch(names, response).value in names &&
      Contains(Lower(response), Lower(FirstMatch(names, response).value))
  {
    FirstMatchFacts(names, response);
  }

  /** The matching ignores letter case in both the names and the response. */
  lemma {:induction false} FirstMatchIgnoresCase(names: seq<string>, response: string)
    ensures FirstMatch(names, Lower(response)) == FirstMatch(names, response)
  {
    LowerIdempotent(response);
    if |names| > 0 {
      FirstMatchIgnoresCase(names[1..], response);
    }
  }

  /** The matching loop of `suggest_checklist_with_ollama`: the first name in
      list order that occurs in the response, ignoring case. */
  method MatchChecklistName(names: seq<string>, response: string) returns (suggested: Option<string>)
    ensures suggested == FirstMatch(names, response)
  {
    suggested := None;
    var i := 0;
    while i < |names|
      invariant 0 <= i <= |names|
      invariant FirstMatch(names, response) == FirstMatch(names[i..], response)
    {
      assert names[i..][1..] == names[i + 1..];
      if Contains(Lower(response), Lower(names[i])) {
        suggested := Some(names[i]);
        return;
      }
      i := i + 1;
    }
  }

  /** `suggest_checklist_with_ollama` of suggest_checklist.py, from the point
      where the reply is known: a failed request (`None`) gives no suggestion,
      and otherwise the reply's `response` text is stripped and matched. */
  method SuggestChecklistWithOllama(names: seq<string>, reply: Option<string>) returns (suggested: Option<string>)
    ensures reply.None? ==> suggested.None?
    ensures reply.Some? ==> suggested == FirstMatch(names, Strip(reply.value))
  {
    if reply.None? {
      return None;
    }
    var responseText := Strip(reply.value);
    suggested := MatchChecklistName(names, responseText);
  }

  // ================================================ extension dispatch

  /** The index of the last `c` in `s[..j]`. */
  function LastIndexOf(s: string, c: char, j: nat): (r: Option<nat>)
    requires j <= |s|
    ensures r.Some? ==> r.value < j && s[r.value] == c
  {
    if j == 0 then None
    else if s[j - 1] == c then Some(j - 1)
    else LastIndexOf(s, c, j - 1)
  }

  lemma {:induction false} LastIndexOfLast(s: string, c: char, j: nat)
    requires j <= |s|
    ensures LastIndexOf(s, c, j).None? ==> forall m :: 0 <= m < j ==> s[m] != c
    ensures LastIndexOf(s, c, j).Some? ==> forall m :: LastIndexOf(s, c, j).value < m < j ==> s[m] != c
  {
    if j > 0 && s[j - 1] != c {
      LastIndexOfLast(s, c, j - 1);
    }
  }

  /** Where the last path component starts. */
  function NameStart(path: string): nat
  {
    match LastIndexOf(path, '/', |path|)
    case None => 0
    case Some(k) => k + 1
  }

  /** The extension of `os.path.splitext`: from the last `.` of the last path
      component, provided a character other than `.` comes before it in that
      component (so `.bashrc` and `..pdf` have none); otherwise empty. */
  function Extension(path: string): (ext: string)
    ensures |ext| <= |path|
  {
    var start := NameStart(path);
    match LastIndexOf(path, '.', |path|)
    case None => []
    case Some(dot) =>
      if start <= dot && exists k :: start <= k < dot && path[k] != '.' then path[dot..] else []
  }

  /** An extension is empty or a `.` followed by neither `.` nor `/`, and it
      ends the path. */
  lemma {:induction false} ExtensionFacts(path: string)
    ensures var ext := Extension(path);
      && EndsWith(path, ext)
      && (ext == [] || (ext[0] == '.' && '.' !in ext[1..] && '/' !in ext))
  {
    var ext := Extension(path);
    LastIndexOfLast(path, '.', |path|);
    LastIndexOfLast(path, '/', |path|);
    if ext != [] {
      var dot := LastIndexOf(path, '.', |path|).value;
      assert ext == path[dot..];
      assert path[|path| - |ext|..] == ext;
      forall m | 0 <= m < |ext| ensures ext[m] != '/' && (m > 0 ==> ext[m] != '.') {
        assert ext[m] == path[dot + m];
      }
    }
  }

  /** A stem whose name part ends in something other than `.` or `/`,
      followed by a `.` and a suffix with neither, has that extension. */
  lemma {:induction false} ExtensionOfAppended(stem: string, suffix: string)
    requires |stem| > 0 && stem[|stem| - 1] != '.' && stem[|stem| - 1] != '/'
    requires '.' !in suffix && '/' !in suffix
    ensures Extension(stem + ['.'] + suffix) == ['.'] + suffix
  {
    var path := stem + ['.'] + suffix;
    var dot := |stem|;
    assert path[dot] == '.';
    assert forall m :: dot < m < |path| ==> path[m] == suffix[m - dot - 1];
    assert LastIndexOf(path, '.', |path|) == Some(dot) by {
      LastIndexOfUpTo(path, '.', dot, |path|);
    }
    LastIndexOfLast(path, '/', |path|);
    var start := NameStart(path);
    assert start <= dot - 1 by {
      if LastIndexOf(path, '/', |path|).Some? {
        var k := LastIndexOf(path, '/', |path|).value;
        assert path[dot - 1] == stem[dot - 1];
        assert k != dot - 1;
      }
    }
    assert path[dot - 1] != '.';
    assert path[dot..] == ['.'] + suffix;
  }

  /** `LastIndexOf` finds `c` at `k` when nothing after `k` is a `c`. */
  lemma {:induction false} LastIndexOfUpTo(s: string, c: char, k: nat, j: nat)
    requires k < j <= |s| && s[k] == c
    requires forall m :: k < m < j ==> s[m] != c
    ensures LastIndexOf(s, c, j) == Some(k)
    decreases j
  {
    if j - 1 > k {
      LastIndexOfUpTo(s, c, k, j - 1);
    }
  }

  /** A hidden file such as `.pdf` or `notes/.PDF` has no extension, so no
      extractor is chosen for it. */
  lemma {:induction false} HiddenFileHasNoFormat(dir: string, suffix: string)
    requires dir == [] || dir[|dir| - 1] == '/'
    requires '.' !in suffix && '/' !in suffix
    ensures Extension(dir + ['.'] + suffix) == []
    ensures FormatOf(dir + ['.'] + suffix).None?
  {
    var path := dir + ['.'] + suffix;
    var dot := |dir|;
    assert path[dot] == '.';
    assert forall m :: dot < m < |path| ==> path[m] == suffix[m - dot - 1];
    LastIndexOfUpTo(path, '.', dot, |path|);
    if dir == [] {
      assert forall m :: 0 <= m < |path| ==> path[m] != '/';
      assert LastIndexOf(path, '/', |path|).None?;
    } else {
      assert path[dot - 1] == '/';
      LastIndexOfUpTo(path, '/', dot - 1, |path|);
    }
    assert NameStart(path) == dot;
  }

  /** The extractors `extract_manuscript_text` can dispatch to. */
  datatype Format = Pdf | Docx | Txt

  /** The format of a path, by its lower-cased extension. */
  function FormatOf(path: string): (f: Option<Format>)
    ensures f == Some(Pdf) <==> Lower(Extension(path)) == ".pdf"
    ensures f == Some(Docx) <==> Lower(Extension(path)) == ".docx"
    ensures f == Some(Txt) <==> Lower(Extension(path)) == ".txt"
  {
    var ext := Lower(Extension(path));
    if ext == ".pdf" then Some(Pdf)
    else if ext == ".docx" then Some(Docx)
    else if ext == ".txt" then Some(Txt)
    else None
  }

  /** `extract_manuscript_text`: a missing file gives `None` before the
      extension matters; a known extension gives what its extractor returns
      (`extract` stands for the three extractors, each `None` on failure);
      any other extension gives `None`. */
  function ExtractManuscriptText(path: string, fileExists: bool, extract: Format -> Option<string>): (text: Option<string>)
    ensures !fileExists ==> text.None?
    ensures fileExists && FormatOf(path).Some? ==> text == extract(FormatOf(path).value)
    ensures FormatOf(path).None? ==> text.None?
  {
    if !fileExists then None
    else
      match FormatOf(path)
      case Some(f) => extract(f)
      case None => None
  }

  /** The extension is compared lower-cased: `.PDF`, `.Docx` and `.TXT`
      choose the same extractor as `.pdf`, `.docx` and `.txt`. */
  lemma {:induction false} FormatIgnoresCase(stem: string, suffix: string)
    requires |stem| > 0 && stem[|stem| - 1] != '.' && stem[|stem| - 1] != '/'
    requires '.' !in suffix && '/' !in suffix
    ensures Lower(suffix) == "pdf" ==> FormatOf(stem + ['.'] + suffix) == Some(Pdf)
    ensures Lower(suffix) == "docx" ==> FormatOf(stem + ['.'] + suffix) == Some(Docx)
    ensures Lower(suffix) == "txt" ==> FormatOf(stem + ['.'] + suffix) == Some(Txt)
    ensures Lower(suffix) !in {"pdf", "docx", "txt"} ==> FormatOf(stem + ['.'] + suffix).None?
  {
    LowerExtensionOfAppended(stem, suffix);
    DotPrefixed(Lower(suffix));
  }

  /** The lower-cased extension of such a path is `.` and the lower-cased
      suffix. */
  lemma {:induction false} LowerExtensionOfAppended(stem: string, suffix: string)
    requires |stem| > 0 && stem[|stem| - 1] != '.' && stem[|stem| - 1] != '/'
    requires '.' !in suffix && '/' !in suffix
    ensures Lower(Extension(stem + ['.'] + suffix)) == ['.'] + Lower(suffix)
  {
    ExtensionOfAppended(stem, suffix);
    LowerAppend(['.'], suffix);
    assert Lower(['.']) == ['.'];
  }

  /** `.` and a word equal one of the known extensions exactly when the word
      is that extension's name. */
  lemma {:induction false} DotPrefixed(w: string)
    ensures ['.'] + w == ".pdf" <==> w == "pdf"
    ensures ['.'] + w == ".docx" <==> w == "docx"
    ensures ['.'] + w == ".txt" <==> w == "txt"
  {
    var d := ['.'] + w;
    assert d[1..] == w;
    assert ".pdf"[1..] == "pdf" && ".docx"[1..] == "docx" && ".txt"[1..] == "txt";
  }
}
