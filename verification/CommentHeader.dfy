/**
 The hidden header by which the program finds its own comments again (pkg/github/commenter/ghcommenter.go:25,86-93,
 pkg/sippyserver/pr_commenting_processor.go:403, pkg/dataloader/prowloader/github/github.go:20,350-374).

 The regular expression that finds the header is modelled; the JSON parser is a parameter.
 */
module CommentHeader {
  import opened Common

  const RiskAnalysis := 0
  const TrtCommentIDKey := "trt_comment_id"

  function CreateCommentID(commentType: int, sha: string): string {
    if commentType == RiskAnalysis then "RISK_ANALYSIS_" + sha else "TRT_" + sha
  }

  /** The comment as posted: a hidden header that carries the comment ID, then the text. */
  function GhComment(id: string, text: string): string {
    "<!-- META={\"" + TrtCommentIDKey + "\": \"" + id + "\"} -->\n\n" + text
  }

  /** Comments have one ID exactly when they are for one commit and both or neither are risk analyses. */
  lemma IdsEqualIff(commentType: int, sha: string, otherType: int, other: string)
    ensures CreateCommentID(commentType, sha) == CreateCommentID(otherType, other) <==>
            sha == other && (commentType == 0 <==> otherType == 0)
  {
    var a, b := CreateCommentID(commentType, sha), CreateCommentID(otherType, other);
    assert a[0] == if commentType == 0 then 'R' else 'T';
    assert b[0] == if otherType == 0 then 'R' else 'T';
    assert sha == a[if commentType == 0 then 14 else 4..] && other == b[if otherType == 0 then 14 else 4..];
  }

  // ---------------------------------------------------------------------------------------
  // Finding the header

  predicate IsReSpace(c: char) {
    c == ' ' || c == '\t' || c == '\n' || c == '\r' || c == '\U{c}'
  }

  function SkipSpaces(s: string): string {
    if s != "" && IsReSpace(s[0]) then SkipSpaces(s[1..]) else s
  }

  function UntilBrace(s: string): string {
    if s == "" || s[0] == '}' then "" else [s[0]] + UntilBrace(s[1..])
  }

  predicate StartsWith(s: string, word: string) {
    |word| <= |s| && s[..|word|] == word
  }

  /** A match of the expression at the start of a text: `META\s*=\s*{` and then all up to a closing brace. */
  function MetaAt(s: string): Option<string> {
    if !StartsWith(s, "META") then None
    else
      var t := SkipSpaces(s[4..]);
      if !StartsWith(t, "=") then None
      else
        var u := SkipSpaces(t[1..]);
        if !StartsWith(u, "{") then None else Some(UntilBrace(u[1..]))
  }

  /** The leftmost match. */
  function FindMeta(s: string): Option<string> {
    if MetaAt(s).Some? then MetaAt(s) else if s == "" then None else FindMeta(s[1..])
  }

  lemma {:induction false} UntilBraceStops(inside: string, rest: string)
    requires '}' !in inside
    ensures UntilBrace(inside + "}" + rest) == inside
  {
    var s := inside + "}" + rest;
    if inside != "" {
      assert s[0] == inside[0] && s[1..] == inside[1..] + "}" + rest;
      UntilBraceStops(inside[1..], rest);
    }
  }

  /** Text without an M cannot start a match. */
  lemma {:induction false} FindMetaSkips(before: string, s: string)
    requires 'M' !in before
    ensures FindMeta(before + s) == FindMeta(s)
  {
    if before == "" {
      assert before + s == s;
    } else {
      var t := before + s;
      assert t[0] == before[0] && t[1..] == before[1..] + s;
      assert !StartsWith(t, "META") by { assert "META"[0] == 'M' && (|t| >= 4 ==> t[..4][0] == t[0]); }
      FindMetaSkips(before[1..], s);
    }
  }

  // ---------------------------------------------------------------------------------------
  // Reading the ID

  /** The members with string values of a JSON object, none if the text is not one. */
  type JsonReader = string -> map<string, string>

  /** Printable characters that mean themselves inside a JSON string and inside the header. */
  predicate Plain(s: string) {
    forall i :: 0 <= i < |s| ==> ' ' <= s[i] <= '~' && s[i] != '"' && s[i] != '\\' && s[i] != '}'
  }

  /** The parser reads the object that the header holds for an ID. */
  ghost predicate ReadsOwnObject(json: JsonReader) {
    forall id :: Plain(id) ==>
      json("{" + OwnMember(id) + "}") == map[TrtCommentIDKey := id]
  }

  function OwnMember(id: string): string {
    "\"" + TrtCommentIDKey + "\": \"" + id + "\""
  }

  /** The comment ID of a comment body, if it has one: `isCommentIDMatch` compares it with the wanted ID. */
  function ReadId(json: JsonReader, body: string): Option<string> {
    match FindMeta(body)
    case None => None
    case Some(meta) =>
      var members := json("{" + meta + "}");
      if TrtCommentIDKey in members then Some(members[TrtCommentIDKey]) else None
  }

  /** A comment that the program posts is found by its own ID and by no other, whatever its text. */
  lemma ReadsOwnHeader(json: JsonReader, id: string, text: string)
    requires ReadsOwnObject(json) && Plain(id)
    ensures ReadId(json, GhComment(id, text)) == Some(id)
  {
    var member, rest := OwnMember(id), " -->\n\n" + text;
    var s := "META={" + member + "}" + rest;
    assert GhComment(id, text) == "<!-- " + s;
    assert '}' !in member by {
      assert '}' !in "\"" + TrtCommentIDKey + "\": \"" && '}' !in id && '}' !in "\"";
    }
    hide OwnMember, GhComment, Plain;
    FindMetaSkips("<!-- ", s);
    MetaAtHeader(member, rest);
  }

  lemma MetaAtHeader(member: string, rest: string)
    requires '}' !in member
    ensures FindMeta("META={" + member + "}" + rest) == Some(member)
  {
    var s, u := "META={" + member + "}" + rest, "{" + member + "}" + rest;
    assert s[..4] == "META" && s[4..] == "=" + u;
    assert SkipSpaces(s[4..]) == s[4..] && s[4..][..1] == "=" && s[4..][1..] == u;
    assert SkipSpaces(u) == u && u[..1] == "{" && u[1..] == member + "}" + rest;
    UntilBraceStops(member, rest);
  }

  lemma PlainId(commentType: int, sha: string)
    requires Plain(sha)
    ensures Plain(CreateCommentID(commentType, sha))
  {
  }

  /** What is posted ends with the text that was prepared, behind a header that depends on the ID alone. */
  lemma PostedText(id: string, text: string)
    ensures GhComment(id, text) == GhComment(id, "") + text
  {
  }

  /** There is such a parser. */
  lemma OwnObjectReader() returns (json: JsonReader)
    ensures ReadsOwnObject(json)
  {
    json := s => if |s| < 22 then map[] else map[TrtCommentIDKey := s[20..|s| - 2]];
    forall id | Plain(id) ensures json("{" + OwnMember(id) + "}") == map[TrtCommentIDKey := id] {
      var s := "{" + OwnMember(id) + "}";
      assert |s| == |id| + 22 && s[20..|s| - 2] == id;
    }
  }
}
