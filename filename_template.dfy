/**
 * The file-name template engine: `{variable}` templates are validated,
 * their placeholders extracted, expanded with variable values, and the
 * expansion is sanitised into a file name.
 */
module FilenameTemplate {
  import opened JsStrings

  /** The recognised variable names, spelled as the engine lists them. */
  const SupportedVariables: seq<string> := ["imageId", "fileExtension", "timestamp", "index"]

  const DefaultFilenameTemplate: string := "pinterest_{imageId}.{fileExtension}"

  // ---------------------------------------------------------------------
  // Placeholder extraction: the global pattern /\{([^{}]+)\}/g

  predicate IsBrace(c: char) {
    c == '{' || c == '}'
  }

  /** The end of the longest brace-free run of `t` starting at `i`. */
  function RunEnd(t: string, i: nat): (j: nat)
    requires i <= |t|
    ensures i <= j <= |t|
    ensures forall k :: i <= k < j ==> !IsBrace(t[k])
    ensures j < |t| ==> IsBrace(t[j])
    decreases |t| - i
  {
    if i == |t| || IsBrace(t[i]) then i else RunEnd(t, i + 1)
  }

  /** The placeholder pattern matches at position `p`. */
  predicate MatchAt(t: string, p: nat) {
    p + 1 < |t| && t[p] == '{' &&
    var j := RunEnd(t, p + 1); p + 1 < j < |t| && t[j] == '}'
  }

  /** The captured name of the match at `p`. */
  function Inner(t: string, p: nat): string
    requires MatchAt(t, p)
  {
    t[p + 1..RunEnd(t, p + 1)]
  }

  /** The index just past the match at `p`, where the next search resumes. */
  function MatchEnd(t: string, p: nat): (e: nat)
    requires MatchAt(t, p)
    ensures p + 2 < e <= |t|
  {
    RunEnd(t, p + 1) + 1
  }

  /** The leftmost match at or after `from`, as `RegExp.prototype.exec` finds it. */
  function NextMatch(t: string, from: nat): (r: Option<nat>)
    requires from <= |t|
    ensures r.Some? ==> from <= r.value < |t| && MatchAt(t, r.value)
    ensures r.Some? ==> forall q :: from <= q < r.value ==> !MatchAt(t, q)
    ensures r.None? ==> forall q :: from <= q < |t| ==> !MatchAt(t, q)
    decreases |t| - from
  {
    if from == |t| then None
    else if MatchAt(t, from) then Some(from)
    else NextMatch(t, from + 1)
  }

  /** The names captured by successive `exec` calls starting at `lastIndex`. */
  function ExecFrom(t: string, lastIndex: nat): seq<string>
    requires lastIndex <= |t|
    decreases |t| - lastIndex
  {
    match NextMatch(t, lastIndex)
    case None => []
    case Some(p) => [Inner(t, p)] + ExecFrom(t, MatchEnd(t, p))
  }

  /** The placeholder names of a template, in order. */
  function Placeholders(t: string): seq<string> {
    ExecFrom(t, 0)
  }

  /** Reference definition: the name of every match position, tried one position at a time. */
  function ScanFrom(t: string, i: nat): seq<string>
    decreases |t| - i
  {
    if i >= |t| then [] else (if MatchAt(t, i) then [Inner(t, i)] else []) + ScanFrom(t, i + 1)
  }

  /** The pattern matches at `p` exactly when a `}` closes a non-empty brace-free run after a `{` there. */
  lemma MatchAtCharacterisation(t: string, p: nat)
    ensures MatchAt(t, p) <==>
      exists j :: p + 1 < j < |t| && t[p] == '{' && t[j] == '}' &&
        forall k :: p < k < j ==> !IsBrace(t[k])
  {
    if p + 1 < |t| && t[p] == '{' {
      var e := RunEnd(t, p + 1);
      if j :| p + 1 < j < |t| && t[p] == '{' && t[j] == '}' && forall k :: p < k < j ==> !IsBrace(t[k]) {
      }
      if MatchAt(t, p) {
        assert forall k :: p < k < e ==> !IsBrace(t[k]);
      }
    }
  }

  lemma {:induction false} ScanSkipsNonMatches(t: string, i: nat, p: nat)
    requires i <= p <= |t|
    requires forall q :: i <= q < p ==> !MatchAt(t, q)
    ensures ScanFrom(t, i) == ScanFrom(t, p)
    decreases p - i
  {
    if i < p {
      ScanSkipsNonMatches(t, i + 1, p);
    }
  }

  /** Searching from match to match finds every match: no match starts inside another. */
  lemma {:induction false} ExecFindsEveryMatch(t: string, i: nat)
    requires i <= |t|
    ensures ExecFrom(t, i) == ScanFrom(t, i)
    decreases |t| - i
  {
    match NextMatch(t, i)
    case None =>
      ScanSkipsNonMatches(t, i, |t|);
    case Some(p) =>
      ScanSkipsNonMatches(t, i, p);
      var e := MatchEnd(t, p);
      forall q | p + 1 <= q < e
        ensures !MatchAt(t, q)
      {
        assert t[q] != '{';
      }
      ScanSkipsNonMatches(t, p + 1, e);
      ExecFindsEveryMatch(t, e);
  }

  /** Every extracted name is non-empty and brace-free, and occurs in braces in the template. */
  lemma {:induction false} ExecNamesAreBraced(t: string, i: nat)
    requires i <= |t|
    ensures forall v :: v in ExecFrom(t, i) ==>
      v != [] && (forall k :: 0 <= k < |v| ==> !IsBrace(v[k])) && Contains(t, "{" + v + "}")
    decreases |t| - i
  {
    match NextMatch(t, i)
    case None =>
    case Some(p) =>
      var e := MatchEnd(t, p);
      var v := Inner(t, p);
      assert t[p..e + 0] == "{" + v + "}";
      assert OccursAt(t, "{" + v + "}", p);
      ExecNamesAreBraced(t, e);
  }

  /** `extractVariables`: the `exec` loop pushing each captured name. */
  method ExtractVariables(template: string) returns (variables: seq<string>)
    ensures variables == Placeholders(template)
    ensures variables == ScanFrom(template, 0)
    ensures forall v :: v in variables ==>
      v != [] && (forall k :: 0 <= k < |v| ==> !IsBrace(v[k])) && Contains(template, "{" + v + "}")
  {
    variables := [];
    var lastIndex := 0;
    var m := NextMatch(template, lastIndex);
    while m.Some?
      invariant lastIndex <= |template|
      invariant m == NextMatch(template, lastIndex)
      invariant variables + ExecFrom(template, lastIndex) == Placeholders(template)
      decreases |template| - lastIndex
    {
      variables := variables + [Inner(template, m.value)];
      lastIndex := MatchEnd(template, m.value);
      m := NextMatch(template, lastIndex);
    }
    ExecFindsEveryMatch(template, 0);
    ExecNamesAreBraced(template, 0);
  }

  // ---------------------------------------------------------------------
  // Validation

  datatype TemplateError = EmptyTemplate | UnbalancedBraces | UnsupportedVariable(name: string)

  datatype Validation = Valid | Invalid(error: TemplateError)

  function ErrorMessage(e: TemplateError): string {
    match e
    case EmptyTemplate => "模板不能为空"
    case UnbalancedBraces => "模板中的括号不匹配"
    case UnsupportedVariable(name) =>
      "不支持的变量: " + name + "。支持的变量有: imageId, fileExtension, timestamp, index"
  }

  /** The index of the first name whose lower-cased form is not literally in `names`. */
  function FirstUnsupported(vars: seq<string>, names: seq<string>): (r: Option<nat>)
    ensures r.Some? ==> r.value < |vars| && LowerAscii(vars[r.value]) !in names
    ensures r.Some? ==> forall k :: 0 <= k < r.value ==> LowerAscii(vars[k]) in names
    ensures r.None? <==> forall k :: 0 <= k < |vars| ==> LowerAscii(vars[k]) in names
  {
    if vars == [] then None
    else if LowerAscii(vars[0]) !in names then Some(0)
    else match FirstUnsupported(vars[1..], names)
      case None => None
      case Some(k) => Some(k + 1)
  }

  /** The checks of `validateTemplate`, with the list the lower-cased names are looked up in. */
  function ValidateAgainst(template: string, names: seq<string>): Validation {
    if template == "" then Invalid(EmptyTemplate)
    else if CountChar(template, '{') != CountChar(template, '}') then Invalid(UnbalancedBraces)
    else
      var vars := Placeholders(template);
      match FirstUnsupported(vars, names)
      case None => Valid
      case Some(k) => Invalid(UnsupportedVariable(vars[k]))
  }

  /** `validateTemplate` as written: lower-cased names against the mixed-case list. */
  function ValidateTemplate(template: string): Validation {
    ValidateAgainst(template, SupportedVariables)
  }

  /** Validation of a non-empty balanced template depends only on its placeholder names. */
  lemma ValidateByNames(template: string, vars: seq<string>, names: seq<string>)
    requires template != "" && CountChar(template, '{') == CountChar(template, '}')
    requires Placeholders(template) == vars
    ensures FirstUnsupported(vars, names).None? ==> ValidateAgainst(template, names) == Valid
    ensures FirstUnsupported(vars, names).Some? ==>
      ValidateAgainst(template, names) == Invalid(UnsupportedVariable(vars[FirstUnsupported(vars, names).value]))
  {
  }

  /** The names that survive the case-sensitive list lookup: `timestamp` and `index`, in any case. */
  predicate IsAcceptedName(v: string) {
    EqualsIgnoreCase(v, "timestamp") || EqualsIgnoreCase(v, "index")
  }

  lemma LowerAsciiEqualsLowerWord(v: string, w: string)
    requires forall i :: 0 <= i < |w| ==> !IsAsciiUpper(w[i])
    ensures LowerAscii(v) == w <==> EqualsIgnoreCase(v, w)
  {
    if EqualsIgnoreCase(v, w) {
      assert forall i :: 0 <= i < |w| ==> LowerAscii(v)[i] == w[i];
    }
  }

  /** The literal list lookup of a lower-cased name accepts only `timestamp` and `index`. */
  lemma LowerNameInSupportedList(v: string)
    ensures LowerAscii(v) in SupportedVariables <==> IsAcceptedName(v)
  {
    var lv := LowerAscii(v);
    assert IsAsciiUpper("imageId"[5]) && IsAsciiUpper("fileExtension"[4]);
    assert |lv| == 7 ==> !IsAsciiUpper(lv[5]);
    assert |lv| == 13 ==> !IsAsciiUpper(lv[4]);
    LowerAsciiEqualsLowerWord(v, "timestamp");
    LowerAsciiEqualsLowerWord(v, "index");
  }

  /** A template passes exactly when it is non-empty, its brace counts agree, and every placeholder is `timestamp` or `index` up to case. */
  lemma ValidateTemplateAccepts(template: string)
    ensures ValidateTemplate(template) == Valid <==>
      && template != ""
      && CountChar(template, '{') == CountChar(template, '}')
      && forall v :: v in Placeholders(template) ==> IsAcceptedName(v)
  {
    var vars := Placeholders(template);
    forall k | 0 <= k < |vars|
      ensures LowerAscii(vars[k]) in SupportedVariables <==> IsAcceptedName(vars[k])
    {
      LowerNameInSupportedList(vars[k]);
    }
  }

  /** The reported error: empty first, then brace counts, then the first unsupported placeholder in order. */
  lemma ValidateTemplateErrors(template: string)
    ensures ValidateTemplate(template) == Invalid(EmptyTemplate) <==> template == ""
    ensures ValidateTemplate(template) == Invalid(UnbalancedBraces) <==>
      template != "" && CountChar(template, '{') != CountChar(template, '}')
    ensures ValidateTemplate(template).Invalid? && ValidateTemplate(template).error.UnsupportedVariable? ==>
      exists k :: 0 <= k < |Placeholders(template)| &&
        ValidateTemplate(template).error.name == Placeholders(template)[k] &&
        !IsAcceptedName(Placeholders(template)[k]) &&
        forall j :: 0 <= j < k ==> IsAcceptedName(Placeholders(template)[j])
  {
    var vars := Placeholders(template);
    if template != "" && CountChar(template, '{') == CountChar(template, '}') {
      match FirstUnsupported(vars, SupportedVariables)
      case None =>
      case Some(k) =>
        LowerNameInSupportedList(vars[k]);
        forall j | 0 <= j < k ensures IsAcceptedName(vars[j]) {
          LowerNameInSupportedList(vars[j]);
        }
    }
  }

  /** `RunEnd` pinned down by the characters it scans. */
  lemma {:induction false} RunEndIs(t: string, i: nat, j: nat)
    requires i <= j <= |t|
    requires '{' !in t[i..j] && '}' !in t[i..j]
    requires j < |t| ==> IsBrace(t[j])
    ensures RunEnd(t, i) == j
    decreases j - i
  {
    if i < j {
      assert t[i] in t[i..j];
      assert t[i + 1..j] == t[i..j][1..];
      RunEndIs(t, i + 1, j);
    }
  }

  /** `NextMatch` pinned down by the first match. */
  lemma {:induction false} NextMatchIs(t: string, from: nat, p: nat)
    requires from <= p < |t| && MatchAt(t, p)
    requires '{' !in t[from..p]
    ensures NextMatch(t, from) == Some(p)
    decreases p - from
  {
    if from < p {
      assert t[from] in t[from..p];
      assert t[from + 1..p] == t[from..p][1..];
      NextMatchIs(t, from + 1, p);
    }
  }

  lemma {:induction false} NoMoreMatches(t: string, from: nat)
    requires from <= |t|
    requires '{' !in t[from..]
    ensures NextMatch(t, from) == None
    decreases |t| - from
  {
    if from < |t| {
      assert t[from] in t[from..];
      assert t[from + 1..] == t[from..][1..];
      NoMoreMatches(t, from + 1);
    }
  }

  predicate BraceFree(s: string) {
    '{' !in s && '}' !in s
  }

  /** One `exec` step: a `{`-free stretch, then the brace-free name `n` in braces. */
  lemma ExecStep(t: string, from: nat, a: nat, n: string)
    requires from <= a && a + 1 + |n| < |t| && n != []
    requires '{' !in t[from..a] && t[a] == '{' && t[a + 1..a + 1 + |n|] == n && t[a + 1 + |n|] == '}'
    requires BraceFree(n)
    ensures ExecFrom(t, from) == [n] + ExecFrom(t, a + |n| + 2)
  {
    RunEndIs(t, a + 1, a + 1 + |n|);
    NextMatchIs(t, from, a);
  }

  lemma ExecAtEnd(t: string)
    ensures ExecFrom(t, |t|) == []
  {
  }

  lemma TwoPlaceholderSlices(t: string, p: string, n1: string, m: string, n2: string)
    requires t == p + "{" + n1 + "}" + m + "{" + n2 + "}"
    ensures |t| == |p| + |n1| + |m| + |n2| + 4
    ensures t[0..|p|] == p && t[|p|] == '{' && t[|p| + 1..|p| + 1 + |n1|] == n1
    ensures t[|p| + 1 + |n1|] == '}'
    ensures t[|p| + 2 + |n1|..|p| + 2 + |n1| + |m|] == m && t[|p| + 2 + |n1| + |m|] == '{'
    ensures t[|p| + 3 + |n1| + |m|..|p| + 3 + |n1| + |m| + |n2|] == n2
    ensures t[|p| + 3 + |n1| + |m| + |n2|] == '}'
  {
  }

  /** The names of a template made of two placeholders, located by index. */
  lemma PlaceholdersOfSlices(t: string, a: nat, n1: string, c: nat, n2: string)
    requires a + 1 + |n1| < c && c + |n2| + 2 == |t|
    requires n1 != [] && n2 != [] && BraceFree(n1) && BraceFree(n2)
    requires '{' !in t[0..a] && t[a] == '{' && t[a + 1..a + 1 + |n1|] == n1 && t[a + 1 + |n1|] == '}'
    requires '{' !in t[a + |n1| + 2..c] && t[c] == '{' && t[c + 1..c + 1 + |n2|] == n2 && t[c + 1 + |n2|] == '}'
    ensures Placeholders(t) == [n1, n2]
  {
    ExecStep(t, 0, a, n1);
    ExecStep(t, a + |n1| + 2, c, n2);
    ExecAtEnd(t);
  }

  /** A template with two brace-free placeholders around brace-free text has exactly those two names. */
  lemma TwoPlaceholders(p: string, n1: string, m: string, n2: string)
    requires BraceFree(p) && BraceFree(n1) && BraceFree(m) && BraceFree(n2)
    requires n1 != [] && n2 != []
    ensures Placeholders(p + "{" + n1 + "}" + m + "{" + n2 + "}") == [n1, n2]
  {
    var t := p + "{" + n1 + "}" + m + "{" + n2 + "}";
    TwoPlaceholderSlices(t, p, n1, m, n2);
    PlaceholdersOfSlices(t, |p|, n1, |p| + 2 + |n1| + |m|, n2);
  }

  lemma TwoPlaceholderBraceCounts(p: string, n1: string, m: string, n2: string)
    requires BraceFree(p) && BraceFree(n1) && BraceFree(m) && BraceFree(n2)
    ensures CountChar(p + "{" + n1 + "}" + m + "{" + n2 + "}", '{') == 2
    ensures CountChar(p + "{" + n1 + "}" + m + "{" + n2 + "}", '}') == 2
  {
  }

  lemma DefaultTemplateShape()
    ensures DefaultFilenameTemplate == "pinterest_" + "{" + "imageId" + "}" + "." + "{" + "fileExtension" + "}"
  {
  }

  lemma DefaultPlaceholders()
    ensures Placeholders(DefaultFilenameTemplate) == ["imageId", "fileExtension"]
  {
    DefaultTemplateShape();
    TwoPlaceholders("pinterest_", "imageId", ".", "fileExtension");
  }

  lemma DefaultBraceCounts()
    ensures CountChar(DefaultFilenameTemplate, '{') == 2 == CountChar(DefaultFilenameTemplate, '}')
  {
    DefaultTemplateShape();
    TwoPlaceholderBraceCounts("pinterest_", "imageId", ".", "fileExtension");
  }

  /** The default template itself is rejected: `imageId` lower-cases to `imageid`, which is not in the list. */
  lemma DefaultTemplateRejected()
    ensures ValidateTemplate(DefaultFilenameTemplate) == Invalid(UnsupportedVariable("imageId"))
  {
    DefaultPlaceholders();
    DefaultBraceCounts();
    var vars := ["imageId", "fileExtension"];
    LowerNameInSupportedList(vars[0]);
    assert !IsAcceptedName(vars[0]);
    assert FirstUnsupported(vars, SupportedVariables) == Some(0);
    ValidateByNames(DefaultFilenameTemplate, vars, SupportedVariables);
  }

  /** Only the counts of braces are compared: `}{` passes. */
  lemma ReversedBracesPass()
    ensures ValidateTemplate("}{") == Valid
  {
    assert !MatchAt("}{", 0) && !MatchAt("}{", 1);
    assert NextMatch("}{", 0) == None;
  }

  // The corrected validation, comparing case-insensitively as the list intends.

  const SupportedVariablesLower: seq<string> := ["imageid", "fileextension", "timestamp", "index"]

  function ValidateTemplateCaseInsensitive(template: string): Validation {
    ValidateAgainst(template, SupportedVariablesLower)
  }

  predicate IsSupportedName(v: string) {
    exists n :: n in SupportedVariables && EqualsIgnoreCase(v, n)
  }

  lemma LowerNameInLowerList(v: string)
    ensures LowerAscii(v) in SupportedVariablesLower <==> IsSupportedName(v)
  {
    LowerAsciiEqualsLowerWord(v, "imageid");
    LowerAsciiEqualsLowerWord(v, "fileextension");
    LowerAsciiEqualsLowerWord(v, "timestamp");
    LowerAsciiEqualsLowerWord(v, "index");
    if EqualsIgnoreCase(v, "imageId") { assert EqualsIgnoreCase(v, "imageid"); }
    if EqualsIgnoreCase(v, "fileExtension") { assert EqualsIgnoreCase(v, "fileextension"); }
    if EqualsIgnoreCase(v, "imageid") { assert EqualsIgnoreCase(v, "imageId"); }
    if EqualsIgnoreCase(v, "fileextension") { assert EqualsIgnoreCase(v, "fileExtension"); }
  }

  /** The corrected validation accepts exactly the templates whose placeholders are all recognised names up to case. */
  lemma ValidateCaseInsensitiveAccepts(template: string)
    ensures ValidateTemplateCaseInsensitive(template) == Valid <==>
      && template != ""
      && CountChar(template, '{') == CountChar(template, '}')
      && forall v :: v in Placeholders(template) ==> IsSupportedName(v)
  {
    var vars := Placeholders(template);
    forall k | 0 <= k < |vars|
      ensures LowerAscii(vars[k]) in SupportedVariablesLower <==> IsSupportedName(vars[k])
    {
      LowerNameInLowerList(vars[k]);
    }
  }

  /** Every listed name, lower-cased, is in the lower-cased list. */
  lemma ListedNameLowered(k: nat)
    requires k < |SupportedVariables|
    ensures LowerAscii(SupportedVariables[k]) in SupportedVariablesLower
  {
    var v := SupportedVariables[k];
    LowerNameInLowerList(v);
    EqualsIgnoreCaseRefl(v);
  }

  lemma DefaultNamesSupported()
    ensures FirstUnsupported(["imageId", "fileExtension"], SupportedVariablesLower) == None
  {
    var vars := ["imageId", "fileExtension"];
    ListedNameLowered(0);
    ListedNameLowered(1);
    assert LowerAscii(vars[0]) in SupportedVariablesLower;
    assert LowerAscii(vars[1]) in SupportedVariablesLower;
  }

  lemma DefaultTemplateAcceptedCaseInsensitive()
    ensures ValidateTemplateCaseInsensitive(DefaultFilenameTemplate) == Valid
  {
    DefaultPlaceholders();
    DefaultBraceCounts();
    var vars := ["imageId", "fileExtension"];
    DefaultNamesSupported();
    ValidateByNames(DefaultFilenameTemplate, vars, SupportedVariablesLower);
  }

  // ---------------------------------------------------------------------
  // Sanitising

  /** The characters `/ \ : * ? " < > |`, illegal in file names. */
  predicate IsIllegalChar(c: char) {
    c == '/' || c == '\\' || c == ':' || c == '*' || c == '?' || c == '"' || c == '<' || c == '>' || c == '|'
  }

  predicate NoIllegalChars(s: string) {
    forall i :: 0 <= i < |s| ==> !IsIllegalChar(s[i])
  }

  predicate NoWhitespace(s: string) {
    forall i :: 0 <= i < |s| ==> !IsWhitespace(s[i])
  }

  predicate NoDoubleUnderscore(s: string) {
    forall i :: 0 <= i < |s| - 1 ==> !(s[i] == '_' && s[i + 1] == '_')
  }

  /** Step 1: every illegal character becomes `_`. */
  function ReplaceIllegal(s: string): (r: string)
    ensures |r| == |s|
    ensures forall i :: 0 <= i < |s| ==> r[i] == (if IsIllegalChar(s[i]) then '_' else s[i])
  {
    if s == [] then [] else [if IsIllegalChar(s[0]) then '_' else s[0]] + ReplaceIllegal(s[1..])
  }

  function DropWhitespaceRun(s: string): (r: string)
    ensures |r| <= |s| && r == s[|s| - |r|..]
    ensures r != [] ==> !IsWhitespace(r[0])
  {
    if s != [] && IsWhitespace(s[0]) then DropWhitespaceRun(s[1..]) else s
  }

  /** Step 2: every maximal run of whitespace becomes one `_`. */
  function CollapseWhitespace(s: string): (r: string)
    ensures NoWhitespace(r)
    ensures forall i :: 0 <= i < |r| ==> r[i] == '_' || r[i] in s
    ensures NoWhitespace(s) ==> r == s
    decreases |s|
  {
    if s == [] then []
    else if IsWhitespace(s[0]) then "_" + CollapseWhitespace(DropWhitespaceRun(s))
    else [s[0]] + CollapseWhitespace(s[1..])
  }

  function DropUnderscoreRun(s: string): (r: string)
    ensures |r| <= |s| && r == s[|s| - |r|..]
    ensures r != [] ==> r[0] != '_'
  {
    if s != [] && s[0] == '_' then DropUnderscoreRun(s[1..]) else s
  }

  /** Step 3: every run of two or more `_` becomes one `_`. */
  function CollapseUnderscores(s: string): (r: string)
    ensures |r| <= |s| && (r == [] <==> s == [])
    ensures r != [] ==> r[0] == s[0]
    ensures forall i :: 0 <= i < |r| ==> r[i] in s
    ensures NoDoubleUnderscore(r)
    ensures NoDoubleUnderscore(s) ==> r == s
    decreases |s|
  {
    if s == [] then []
    else if |s| >= 2 && s[0] == '_' && s[1] == '_' then
      var t := CollapseUnderscores(DropUnderscoreRun(s));
      ConsNoDoubleUnderscore('_', t);
      "_" + t
    else
      var t := CollapseUnderscores(s[1..]);
      ConsNoDoubleUnderscore(s[0], t);
      TailNoDoubleUnderscore(s);
      assert NoDoubleUnderscore(s) ==> [s[0]] + t == s;
      [s[0]] + t
  }

  /** A character in front of a string without `__` makes none, unless it is a `_` before a `_`. */
  lemma ConsNoDoubleUnderscore(c: char, t: string)
    requires NoDoubleUnderscore(t) && (c != '_' || t == [] || t[0] != '_')
    ensures NoDoubleUnderscore([c] + t)
  {
    var r := [c] + t;
    forall i | 0 <= i < |r| - 1 ensures !(r[i] == '_' && r[i + 1] == '_') {
      assert r[i + 1] == t[i];
      if i > 0 { assert r[i] == t[i - 1]; }
    }
  }

  /** Regrouping a concatenation of three strings. */
  lemma Regroup(x: string, y: string, z: string)
    ensures x + y + z == x + (y + z)
  {
  }

  /** Splitting off the first character of a concatenation with a non-empty head. */
  lemma SplitHead(a: string, x: string)
    requires a != []
    ensures (a + x)[0] == a[0] && (a + x)[1..] == a[1..] + x
    ensures [a[0]] + (a[1..] + x) == a + x
  {
  }

  /** A leading whitespace run is dropped whole. */
  lemma {:induction false} DropWhitespaceRunOf(w: string, b: string)
    requires forall i :: 0 <= i < |w| ==> IsWhitespace(w[i])
    requires b == [] || !IsWhitespace(b[0])
    ensures DropWhitespaceRun(w + b) == b
    decreases |w|
  {
    if w == [] {
      assert w + b == b;
    } else {
      assert (w + b)[1..] == w[1..] + b;
      DropWhitespaceRunOf(w[1..], b);
    }
  }

  /** Dropping the first character keeps a string free of whitespace. */
  lemma TailNoWhitespace(a: string)
    requires a != [] && NoWhitespace(a)
    ensures NoWhitespace(a[1..]) && !IsWhitespace(a[0])
  {
  }

  /** A leading whitespace run becomes one `_`. */
  lemma WhitespaceRunAtStart(w: string, b: string)
    requires w != [] && forall i :: 0 <= i < |w| ==> IsWhitespace(w[i])
    requires b == [] || !IsWhitespace(b[0])
    ensures CollapseWhitespace(w + b) == "_" + CollapseWhitespace(b)
  {
    assert (w + b)[0] == w[0];
    DropWhitespaceRunOf(w, b);
  }

  /** A character that is no whitespace is kept in front of the rest. */
  lemma KeptBeforeWhitespace(c: char, t: string)
    requires !IsWhitespace(c)
    ensures CollapseWhitespace([c] + t) == [c] + CollapseWhitespace(t)
  {
    assert ([c] + t)[1..] == t;
  }

  /**
   * Every maximal whitespace run becomes exactly one `_`, and the text around it is kept:
   * a run between a whitespace-free head and a tail that starts with no whitespace.
   */
  lemma {:induction false} WhitespaceRunBecomesUnderscore(a: string, w: string, b: string)
    requires NoWhitespace(a)
    requires w != [] && forall i :: 0 <= i < |w| ==> IsWhitespace(w[i])
    requires b == [] || !IsWhitespace(b[0])
    ensures CollapseWhitespace(a + w + b) == a + "_" + CollapseWhitespace(b)
    decreases |a|
  {
    if a == [] {
      assert a + w + b == w + b;
      WhitespaceRunAtStart(w, b);
    } else {
      var rest := "_" + CollapseWhitespace(b);
      TailNoWhitespace(a);
      Regroup(a, w, b);
      SplitHead(a, w + b);
      Regroup(a[1..], w, b);
      WhitespaceRunBecomesUnderscore(a[1..], w, b);
      KeptBeforeWhitespace(a[0], a[1..] + (w + b));
      Regroup(a[1..], "_", CollapseWhitespace(b));
      SplitHead(a, rest);
      Regroup(a, "_", CollapseWhitespace(b));
    }
  }

  predicate AllUnderscores(u: string) {
    forall i :: 0 <= i < |u| ==> u[i] == '_'
  }

  /** A leading run of `_` is dropped whole. */
  lemma {:induction false} DropUnderscoreRunOf(u: string, b: string)
    requires AllUnderscores(u)
    requires b == [] || b[0] != '_'
    ensures DropUnderscoreRun(u + b) == b
    decreases |u|
  {
    if u == [] {
      assert u + b == b;
    } else {
      assert (u + b)[1..] == u[1..] + b;
      DropUnderscoreRunOf(u[1..], b);
    }
  }

  /** A leading run of `_`, single or not, becomes one `_`. */
  lemma UnderscoreRunAtStart(u: string, b: string)
    requires u != [] && AllUnderscores(u)
    requires b == [] || b[0] != '_'
    ensures CollapseUnderscores(u + b) == "_" + CollapseUnderscores(b)
  {
    var s := u + b;
    assert s[0] == '_';
    if |u| >= 2 {
      assert s[1] == '_';
      DropUnderscoreRunOf(u, b);
    } else {
      assert s[1..] == b;
    }
  }

  /** A character that starts no `__` is kept in front of the rest. */
  lemma KeptBeforeUnderscores(c: char, t: string)
    requires c != '_' || t == [] || t[0] != '_'
    ensures CollapseUnderscores([c] + t) == [c] + CollapseUnderscores(t)
  {
    assert ([c] + t)[1..] == t;
  }

  /**
   * Every maximal run of `_` becomes exactly one `_`, and the text around it is kept:
   * a run between a head with no `__` that does not end in `_` and a tail that does not start with `_`.
   */
  lemma {:induction false} UnderscoreRunBecomesOne(a: string, u: string, b: string)
    requires NoDoubleUnderscore(a) && (a == [] || a[|a| - 1] != '_')
    requires u != [] && AllUnderscores(u)
    requires b == [] || b[0] != '_'
    ensures CollapseUnderscores(a + u + b) == a + "_" + CollapseUnderscores(b)
    decreases |a|
  {
    if a == [] {
      assert a + u + b == u + b;
      UnderscoreRunAtStart(u, b);
    } else {
      var rest := "_" + CollapseUnderscores(b);
      Regroup(a, u, b);
      SplitHead(a, u + b);
      Regroup(a[1..], u, b);
      TailNoDoubleUnderscore(a);
      UnderscoreRunBecomesOne(a[1..], u, b);
      if |a| >= 2 {
        assert !(a[0] == '_' && a[1] == '_');
        SplitHead(a[1..], u + b);
      }
      KeptBeforeUnderscores(a[0], a[1..] + (u + b));
      Regroup(a[1..], "_", CollapseUnderscores(b));
      SplitHead(a, rest);
      Regroup(a, "_", CollapseUnderscores(b));
    }
  }

  /** Dropping the first character keeps a string free of `__`. */
  lemma TailNoDoubleUnderscore(a: string)
    requires a != []
    ensures NoDoubleUnderscore(a) ==> NoDoubleUnderscore(a[1..])
  {
    if NoDoubleUnderscore(a) {
      forall i | 0 <= i < |a[1..]| - 1 ensures !(a[1..][i] == '_' && a[1..][i + 1] == '_') {
        assert a[1..][i] == a[i + 1] && a[1..][i + 1] == a[i + 2];
      }
    }
  }

  /** `sanitizeFileName` */
  function SanitizeFileName(fileName: string): (r: string)
    ensures NoIllegalChars(r)
    ensures NoWhitespace(r)
    ensures NoDoubleUnderscore(r)
  {
    var s1 := ReplaceIllegal(fileName);
    var s2 := CollapseWhitespace(s1);
    var s3 := CollapseUnderscores(s2);
    assert NoIllegalChars(s2) by {
      forall i | 0 <= i < |s2| ensures !IsIllegalChar(s2[i]) {
        if s2[i] != '_' {
          var k :| 0 <= k < |s1| && s1[k] == s2[i];
        }
      }
    }
    assert NoIllegalChars(s3) && NoWhitespace(s3) by {
      forall i | 0 <= i < |s3| ensures !IsIllegalChar(s3[i]) && !IsWhitespace(s3[i]) {
        var k :| 0 <= k < |s2| && s2[k] == s3[i];
      }
    }
    Trim(s3)
  }

  /** A name that is already clean is left alone. */
  lemma {:induction false} SanitizeCleanIsIdentity(s: string)
    requires NoIllegalChars(s) && NoWhitespace(s) && NoDoubleUnderscore(s)
    ensures SanitizeFileName(s) == s
  {
    assert ReplaceIllegal(s) == s;
  }

  /** Sanitising twice is sanitising once. */
  lemma SanitizeIdempotent(s: string)
    ensures SanitizeFileName(SanitizeFileName(s)) == SanitizeFileName(s)
  {
    SanitizeCleanIsIdentity(SanitizeFileName(s));
  }

  // ---------------------------------------------------------------------
  // Expansion

  /** A variable value: a string, a number (the optional `index`), or `undefined`. */
  datatype VarValue = Text(s: string) | Number(n: int) | Undefined

  /** `String(value)` */
  function Stringify(v: VarValue): string {
    match v
    case Text(s) => s
    case Number(n) => IntToString(n)
    case Undefined => "undefined"
  }

  predicate Truthy(v: Option<VarValue>) {
    match v
    case None => false
    case Some(Text(s)) => s != ""
    case Some(Number(n)) => n != 0
    case Some(Undefined) => false
  }

  /** One own property of the `variables` object, in insertion order. */
  datatype Entry = Entry(key: string, value: VarValue)

  /**
   * A key the model covers: a plain word, so `\{key\}` is a literal pattern,
   * with a character that is no digit, so `Object.entries` lists it in
   * insertion order (integer-like keys come first, in numeric order).
   */
  predicate EntryKey(k: string) {
    IsWord(k) && exists i :: 0 <= i < |k| && !IsDigit(k[i])
  }

  /** Keys are distinct entry keys. */
  predicate WellFormed(es: seq<Entry>) {
    && (forall i :: 0 <= i < |es| ==> EntryKey(es[i].key))
    && (forall i, j :: 0 <= i < j < |es| ==> es[i].key != es[j].key)
  }

  function Lookup(es: seq<Entry>, key: string): (r: Option<VarValue>)
    ensures r.Some? <==> exists i :: 0 <= i < |es| && es[i].key == key
  {
    if es == [] then None
    else if es[0].key == key then Some(es[0].value)
    else Lookup(es[1..], key)
  }

  /** Property assignment: an existing key keeps its place, a new key goes last. */
  function SetEntry(es: seq<Entry>, key: string, v: VarValue): (r: seq<Entry>)
    ensures Lookup(r, key) == Some(v)
    ensures forall k :: k != key ==> Lookup(r, k) == Lookup(es, k)
    ensures |r| == if Lookup(es, key).Some? then |es| else |es| + 1
    ensures forall i :: 0 <= i < |es| ==> r[i].key == es[i].key
    ensures Lookup(es, key).None? ==> r[|es|] == Entry(key, v)
  {
    if es == [] then [Entry(key, v)]
    else
      LookupCons(es[0], es[1..]);
      assert es == [es[0]] + es[1..];
      if es[0].key == key then
        LookupCons(Entry(key, v), es[1..]);
        [Entry(key, v)] + es[1..]
      else
        var t := SetEntry(es[1..], key, v);
        LookupCons(es[0], t);
        [es[0]] + t
  }

  /** Looking up in a sequence with a first entry. */
  lemma LookupCons(e: Entry, t: seq<Entry>)
    ensures forall k :: Lookup([e] + t, k) == if e.key == k then Some(e.value) else Lookup(t, k)
  {
    assert ([e] + t)[1..] == t;
  }

  lemma SetEntryWellFormed(es: seq<Entry>, key: string, v: VarValue)
    requires WellFormed(es) && EntryKey(key)
    ensures WellFormed(SetEntry(es, key, v))
  {
    var r := SetEntry(es, key, v);
    forall i, j | 0 <= i < j < |r| ensures r[i].key != r[j].key {
      if j == |es| {
        assert Lookup(es, key).None?;
        assert es[i].key == key ==> Lookup(es, key).Some?;
      }
    }
    forall i | 0 <= i < |r| ensures EntryKey(r[i].key) {
      if i < |es| { assert r[i].key == es[i].key; }
    }
  }

  /** A UTC instant as the `getUTC*` accessors report it (`month` counts from 0). */
  datatype UtcDateTime = UtcDateTime(year: int, month: int, day: int, hours: int, minutes: int, seconds: int)

  predicate ValidDate(d: UtcDateTime) {
    0 <= d.month <= 11 && 1 <= d.day <= 31 && 0 <= d.hours <= 23 && 0 <= d.minutes <= 59 && 0 <= d.seconds <= 59
  }

  function DigitValue(c: char): int {
    c as int - '0' as int
  }

  /** `String(n).padStart(2, '0')` for `n < 100`. */
  function Pad2(n: nat): (r: string)
    requires n < 100
    ensures |r| == 2 && IsDigit(r[0]) && IsDigit(r[1])
    ensures 10 * DigitValue(r[0]) + DigitValue(r[1]) == n
  {
    if n < 10 then "0" + NatToString(n)
    else
      assert NatToString(n) == [DigitChar(n / 10), DigitChar(n % 10)];
      NatToString(n)
  }

  lemma FourDigitYear(y: nat)
    requires 1000 <= y <= 9999
    ensures |NatToString(y)| == 4
  {
    assert |NatToString(y / 1000)| == 1;
    assert NatToString(y / 100) == NatToString(y / 1000) + [DigitChar(y / 100 % 10)];
    assert NatToString(y / 10) == NatToString(y / 100) + [DigitChar(y / 10 % 10)];
  }

  /** The synthesised `YYYYMMDDHHMMSS` timestamp. */
  function Timestamp(d: UtcDateTime): (r: string)
    requires ValidDate(d)
    ensures 1000 <= d.year <= 9999 ==> |r| == 14 && forall i :: 0 <= i < 14 ==> IsDigit(r[i])
    ensures 1000 <= d.year <= 9999 ==> r[..4] == NatToString(d.year)
    ensures 1000 <= d.year <= 9999 ==>
      r[4..6] == Pad2(d.month + 1) && r[6..8] == Pad2(d.day) && r[8..10] == Pad2(d.hours) &&
      r[10..12] == Pad2(d.minutes) && r[12..14] == Pad2(d.seconds)
  {
    var r := IntToString(d.year) + Pad2(d.month + 1) + Pad2(d.day) + Pad2(d.hours) + Pad2(d.minutes) + Pad2(d.seconds);
    if 1000 <= d.year <= 9999 then FourDigitYear(d.year); r else r
  }

  /** The variables after the timestamp step: one is synthesised when the template names `{timestamp}` and none is given. */
  function WithTimestamp(template: string, es: seq<Entry>, now: UtcDateTime): seq<Entry>
    requires ValidDate(now)
  {
    if Contains(template, "{timestamp}") && !Truthy(Lookup(es, "timestamp"))
    then SetEntry(es, "timestamp", Text(Timestamp(now)))
    else es
  }

  lemma WithTimestampWritesBack(template: string, es: seq<Entry>, now: UtcDateTime)
    requires ValidDate(now)
    ensures Contains(template, "{timestamp}") && !Truthy(Lookup(es, "timestamp")) ==>
      Lookup(WithTimestamp(template, es, now), "timestamp") == Some(Text(Timestamp(now)))
    ensures !Contains(template, "{timestamp}") || Truthy(Lookup(es, "timestamp")) ==>
      WithTimestamp(template, es, now) == es
    ensures forall k :: k != "timestamp" ==> Lookup(WithTimestamp(template, es, now), k) == Lookup(es, k)
  {
  }

  /**
   * The replacement string of `String.prototype.replace` for a pattern with no
   * capture groups: `$$`, `$&`, `` $` `` and `$'` are substituted, any other `$` is literal.
   */
  function ExpandReplacement(rep: string, matched: string, before: string, after: string): string
    decreases |rep|
  {
    if rep == [] then []
    else if rep[0] == '$' && |rep| >= 2 && rep[1] == '$' then "$" + ExpandReplacement(rep[2..], matched, before, after)
    else if rep[0] == '$' && |rep| >= 2 && rep[1] == '&' then matched + ExpandReplacement(rep[2..], matched, before, after)
    else if rep[0] == '$' && |rep| >= 2 && rep[1] == '`' then before + ExpandReplacement(rep[2..], matched, before, after)
    else if rep[0] == '$' && |rep| >= 2 && rep[1] == '\'' then after + ExpandReplacement(rep[2..], matched, before, after)
    else [rep[0]] + ExpandReplacement(rep[1..], matched, before, after)
  }

  lemma {:induction false} ExpandPlain(rep: string, matched: string, before: string, after: string)
    requires '$' !in rep
    ensures ExpandReplacement(rep, matched, before, after) == rep
    decreases |rep|
  {
    if rep != [] {
      ExpandPlain(rep[1..], matched, before, after);
    }
  }

  predicate MatchesIgnoreCaseAt(s: string, pat: string, i: nat) {
    i + |pat| <= |s| && EqualsIgnoreCase(s[i..i + |pat|], pat)
  }

  /** The leftmost case-insensitive occurrence of `pat` at or after `from`. */
  function FindIgnoreCase(s: string, pat: string, from: nat): (r: Option<nat>)
    ensures r.Some? ==> from <= r.value && MatchesIgnoreCaseAt(s, pat, r.value)
    ensures r.Some? ==> forall q :: from <= q < r.value ==> !MatchesIgnoreCaseAt(s, pat, q)
    ensures r.None? ==> forall q :: from <= q ==> !MatchesIgnoreCaseAt(s, pat, q)
    decreases |s| - from
  {
    if from + |pat| > |s| then None
    else if MatchesIgnoreCaseAt(s, pat, from) then Some(from)
    else FindIgnoreCase(s, pat, from + 1)
  }

  /** `s.replace(new RegExp(pat, 'i'), rep)`: only the first occurrence is replaced. */
  function ReplaceFirstIgnoreCase(s: string, pat: string, rep: string): string {
    match FindIgnoreCase(s, pat, 0)
    case None => s
    case Some(i) => s[..i] + ExpandReplacement(rep, s[i..i + |pat|], s[..i], s[i + |pat|..]) + s[i + |pat|..]
  }

  /** With no occurrence of `pat`, nothing changes. */
  lemma ReplaceAbsent(s: string, pat: string, rep: string)
    requires forall q: nat :: !MatchesIgnoreCaseAt(s, pat, q)
    ensures ReplaceFirstIgnoreCase(s, pat, rep) == s
  {
  }

  /** Only the first case-insensitive occurrence is replaced; everything before and after it is kept. */
  lemma ReplaceFirstAt(s: string, pat: string, rep: string, i: nat)
    requires '$' !in rep
    requires MatchesIgnoreCaseAt(s, pat, i)
    requires forall q: nat :: q < i ==> !MatchesIgnoreCaseAt(s, pat, q)
    ensures ReplaceFirstIgnoreCase(s, pat, rep) == s[..i] + rep + s[i + |pat|..]
  {
    var r := FindIgnoreCase(s, pat, 0);
    assert r.Some?;
    assert r.value == i;
    ExpandPlain(rep, s[i..i + |pat|], s[..i], s[i + |pat|..]);
  }

  function Placeholder(key: string): string {
    "{" + key + "}"
  }

  /** The template after the replacement loop has visited the entries `es`, in order. */
  function ApplyEntries(template: string, es: seq<Entry>): string
    decreases |es|
  {
    if es == [] then template
    else
      var last := es[|es| - 1];
      ReplaceFirstIgnoreCase(ApplyEntries(template, es[..|es| - 1]), Placeholder(last.key), Stringify(last.value))
  }

  /** The mutable `variables` object passed to `generateFileName`. */
  class Variables {
    var entries: seq<Entry>

    ghost predicate Valid()
      reads this
    {
      WellFormed(entries)
    }

    constructor (initial: seq<Entry>)
      requires WellFormed(initial)
      ensures Valid() && entries == initial
    {
      entries := initial;
    }

    /** `variables[key] = v` */
    method Set(key: string, v: VarValue)
      requires Valid() && EntryKey(key)
      modifies this
      ensures Valid()
      ensures entries == SetEntry(old(entries), key, v)
    {
      SetEntryWellFormed(entries, key, v);
      entries := SetEntry(entries, key, v);
    }
  }

  /** The replacement loop of `generateFileName`: each entry's placeholder, in order, replaced once. */
  method ReplacePlaceholders(template: string, es: seq<Entry>) returns (name: string)
    ensures name == ApplyEntries(template, es)
  {
    name := template;
    var i := 0;
    while i < |es|
      invariant 0 <= i <= |es|
      invariant name == ApplyEntries(template, es[..i])
    {
      assert es[..i + 1][..i] == es[..i];
      name := ReplaceFirstIgnoreCase(name, Placeholder(es[i].key), Stringify(es[i].value));
      i := i + 1;
    }
    assert es[..|es|] == es;
  }

  lemma TimestampKey()
    ensures EntryKey("timestamp")
  {
    assert !IsDigit("timestamp"[0]);
  }

  /** The timestamp step of `generateFileName`, which writes the synthesised value back into `variables`. */
  method AddTimestamp(template: string, variables: Variables, now: UtcDateTime)
    requires variables.Valid() && ValidDate(now)
    modifies variables
    ensures variables.Valid()
    ensures variables.entries == WithTimestamp(template, old(variables.entries), now)
  {
    if Contains(template, "{timestamp}") && !Truthy(Lookup(variables.entries, "timestamp")) {
      TimestampKey();
      variables.Set("timestamp", Text(Timestamp(now)));
    }
  }

  /** `generateFileName`: synthesise a timestamp if needed, replace each entry's placeholder once, sanitise. */
  method GenerateFileName(template: string, variables: Variables, now: UtcDateTime) returns (fileName: string)
    requires variables.Valid() && ValidDate(now)
    modifies variables
    ensures variables.Valid()
    ensures variables.entries == WithTimestamp(template, old(variables.entries), now)
    ensures fileName == SanitizeFileName(ApplyEntries(template, variables.entries))
  {
    AddTimestamp(template, variables, now);
    var name := ReplacePlaceholders(template, variables.entries);
    fileName := SanitizeFileName(name);
  }

  lemma EqualsIgnoreCaseRefl(a: string)
    ensures EqualsIgnoreCase(a, a)
  {
  }

  /** No `{` before position `p` means no placeholder occurrence starts before it. */
  lemma NoOccurrenceBefore(s: string, key: string, p: nat)
    requires p <= |s| && '{' !in s[..p]
    ensures forall q: nat :: q < p ==> !MatchesIgnoreCaseAt(s, Placeholder(key), q)
  {
    forall q: nat | q < p
      ensures !MatchesIgnoreCaseAt(s, Placeholder(key), q)
    {
      assert s[q] in s[..p];
      if q + |Placeholder(key)| <= |s| {
        assert s[q..q + |Placeholder(key)|][0] == s[q];
      }
    }
  }

  /** A placeholder after `{`-free text is replaced by its value. */
  lemma ReplaceAfterPlainPrefix(x: string, key: string, y: string, v: string)
    requires '{' !in x && '$' !in v
    ensures ReplaceFirstIgnoreCase(x + Placeholder(key) + y, Placeholder(key), v) == x + v + y
  {
    var t := x + Placeholder(key) + y;
    assert t[..|x|] == x && t[|x|..|x| + |Placeholder(key)|] == Placeholder(key);
    assert t[|x| + |Placeholder(key)|..] == y;
    EqualsIgnoreCaseRefl(Placeholder(key));
    NoOccurrenceBefore(t, key, |x|);
    ReplaceFirstAt(t, Placeholder(key), v, |x|);
  }

  /** Two entries are applied one after the other, in order. */
  lemma ApplyEntriesPair(template: string, e1: Entry, e2: Entry)
    ensures ApplyEntries(template, [e1, e2]) == ReplaceFirstIgnoreCase(
      ReplaceFirstIgnoreCase(template, Placeholder(e1.key), Stringify(e1.value)),
      Placeholder(e2.key), Stringify(e2.value))
  {
    var es := [e1, e2];
    assert es[|es| - 1] == e2 && es[..|es| - 1] == [e1];
    assert [e1][..0] == [];
    assert ApplyEntries(template, [e1]) == ReplaceFirstIgnoreCase(template, Placeholder(e1.key), Stringify(e1.value));
  }

  lemma FirstOfTwoReplaced(p: string, k1: string, m: string, k2: string, v1: string)
    requires '{' !in p && '$' !in v1
    ensures ReplaceFirstIgnoreCase(p + Placeholder(k1) + m + Placeholder(k2), Placeholder(k1), v1)
      == (p + v1 + m) + Placeholder(k2) + ""
  {
    assert p + Placeholder(k1) + m + Placeholder(k2) == p + Placeholder(k1) + (m + Placeholder(k2));
    ReplaceAfterPlainPrefix(p, k1, m + Placeholder(k2), v1);
    assert p + v1 + (m + Placeholder(k2)) == (p + v1 + m) + Placeholder(k2) + "";
  }

  /** Two placeholders separated by `{`-free text are replaced, each by its own value. */
  lemma ApplyTwoEntries(p: string, k1: string, m: string, k2: string, v1: string, v2: string)
    requires '{' !in p && '{' !in m && '{' !in v1
    requires '$' !in v1 && '$' !in v2
    ensures ApplyEntries(p + Placeholder(k1) + m + Placeholder(k2), [Entry(k1, Text(v1)), Entry(k2, Text(v2))])
      == p + v1 + m + v2
  {
    ApplyEntriesPair(p + Placeholder(k1) + m + Placeholder(k2), Entry(k1, Text(v1)), Entry(k2, Text(v2)));
    FirstOfTwoReplaced(p, k1, m, k2, v1);
    var x := p + v1 + m;
    assert '{' !in x;
    ReplaceAfterPlainPrefix(x, k2, "", v2);
    assert x + v2 + "" == p + v1 + m + v2;
  }

  lemma DefaultTemplateApplied(id: string, ext: string)
    requires '{' !in id && '$' !in id && '$' !in ext
    ensures ApplyEntries(DefaultFilenameTemplate, [Entry("imageId", Text(id)), Entry("fileExtension", Text(ext))])
      == "pinterest_" + id + "." + ext
  {
    assert DefaultFilenameTemplate == "pinterest_" + Placeholder("imageId") + "." + Placeholder("fileExtension");
    ApplyTwoEntries("pinterest_", "imageId", ".", "fileExtension", id, ext);
  }

  /** The default template with a word-like `imageId` and `fileExtension` gives `pinterest_<id>.<ext>`. */
  lemma DefaultTemplateFileName(id: string, ext: string)
    requires IsWord(id) && IsWord(ext) && NoDoubleUnderscore(id) && NoDoubleUnderscore(ext)
    requires id != [] ==> id[0] != '_'
    ensures SanitizeFileName(ApplyEntries(DefaultFilenameTemplate,
      [Entry("imageId", Text(id)), Entry("fileExtension", Text(ext))])) == "pinterest_" + id + "." + ext
  {
    WordIsPlain(id);
    WordIsPlain(ext);
    DefaultTemplateApplied(id, ext);
    CleanFileName(id, ext);
  }

  lemma WordIsPlain(s: string)
    requires IsWord(s)
    ensures '{' !in s && '$' !in s && NoIllegalChars(s) && NoWhitespace(s)
  {
    assert forall c :: c in s ==> IsWordChar(c);
  }

  lemma CleanFileName(id: string, ext: string)
    requires IsWord(id) && IsWord(ext) && NoDoubleUnderscore(id) && NoDoubleUnderscore(ext)
    requires id != [] ==> id[0] != '_'
    ensures SanitizeFileName("pinterest_" + id + "." + ext) == "pinterest_" + id + "." + ext
  {
    DefaultNameIsClean(id, ext);
    SanitizeCleanIsIdentity("pinterest_" + id + "." + ext);
  }

  /** The default `pinterest_<id>.<ext>` name has nothing for sanitising to change. */
  lemma DefaultNameIsClean(id: string, ext: string)
    requires IsWord(id) && IsWord(ext) && NoDoubleUnderscore(id) && NoDoubleUnderscore(ext)
    requires id != [] ==> id[0] != '_'
    ensures var r := "pinterest_" + id + "." + ext;
      NoIllegalChars(r) && NoWhitespace(r) && NoDoubleUnderscore(r)
  {
    WordIsPlain(id);
    WordIsPlain(ext);
    var p := "pinterest_";
    assert NoIllegalChars(p) && NoWhitespace(p) && NoDoubleUnderscore(p) && p[|p| - 1] == '_';
    CleanConcat(p, id);
    var q := p + id;
    CleanConcat(q, ".");
    assert (q + ".")[|q|] == '.';
    CleanConcat(q + ".", ext);
  }

  /** Two clean strings stay clean side by side, unless a `_` meets a `_` where they join. */
  lemma CleanConcat(x: string, y: string)
    requires NoIllegalChars(x) && NoWhitespace(x) && NoDoubleUnderscore(x)
    requires NoIllegalChars(y) && NoWhitespace(y) && NoDoubleUnderscore(y)
    requires x == [] || y == [] || x[|x| - 1] != '_' || y[0] != '_'
    ensures NoIllegalChars(x + y) && NoWhitespace(x + y) && NoDoubleUnderscore(x + y)
  {
    var r := x + y;
    assert forall i :: 0 <= i < |x| ==> r[i] == x[i];
    assert forall i :: |x| <= i < |r| ==> r[i] == y[i - |x|];
  }
}
