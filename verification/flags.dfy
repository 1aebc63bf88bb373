/** Quality tags and the JSON document that carries them: the four tag
    spellings, the `{}` / `{"issues": [...]}` serialisation, reading a
    document back with `.get("issues", [])`, and the duplicate-tag merge
    done at insert time. */
module Flags {
  import opened Wrappers
  import opened Text

  const InvalidDateFormat: string := "invalid_date_format"
  const MissingTimezone: string := "missing_timezone"
  const OutOfOrder: string := "out_of_order"
  const DuplicateCandidate: string := "duplicate_candidate"

  /** Every tag the pipeline writes. */
  predicate KnownTag(t: string) {
    t == InvalidDateFormat || t == MissingTimezone || t == OutOfOrder || t == DuplicateCandidate
  }

  /** A tag that `json.dumps` writes verbatim between quotes: printable ASCII
      other than the quote and the backslash. */
  predicate PlainTag(t: string) {
    forall i :: 0 <= i < |t| ==> ' ' <= t[i] <= '~' && t[i] != '"' && t[i] != '\\'
  }

  predicate NoRepeats(tags: seq<string>) {
    forall i, j :: 0 <= i < j < |tags| ==> tags[i] != tags[j]
  }

  /** A decoded flag document: the empty object `{}`, or an object whose
      `issues` field lists tags. */
  datatype FlagDoc = NoIssues | Issues(tags: seq<string>)

  /** `{"issues": flags} if flags else {}`. */
  function Dumps(flags: seq<string>): (d: FlagDoc)
    ensures d.NoIssues? <==> flags == []
  {
    if flags == [] then NoIssues else Issues(flags)
  }

  /** `doc.get("issues", [])`. */
  function GetIssues(d: FlagDoc): seq<string> {
    match d
    case NoIssues => []
    case Issues(tags) => tags
  }

  /** Reading a dumped document back gives the tags that were dumped,
      including `[]` for `{}`. */
  lemma GetIssuesDumps(flags: seq<string>)
    ensures GetIssues(Dumps(flags)) == flags
  {
  }

  const IssuesOpen: string := "{\"issues\": ["
  const IssuesClose: string := "]}"

  function Quote(t: string): string {
    "\"" + t + "\""
  }

  /** The list body `"a", "b", ...` with json.dumps' default separator. */
  function Items(tags: seq<string>): string {
    if tags == [] then ""
    else if |tags| == 1 then Quote(tags[0])
    else Quote(tags[0]) + ", " + Items(tags[1..])
  }

  /** The text `json.dumps` writes for a document. */
  function Render(d: FlagDoc): string {
    match d
    case NoIssues => "{}"
    case Issues(tags) => IssuesOpen + Items(tags) + IssuesClose
  }

  /** The first position at or after `from` that holds `c`, or `|s|`. */
  function IndexOf(s: string, c: char, from: nat): (i: nat)
    requires from <= |s|
    ensures from <= i <= |s|
    ensures i < |s| ==> s[i] == c
    ensures forall j :: from <= j < i ==> s[j] != c
    decreases |s| - from
  {
    if from == |s| || s[from] == c then from else IndexOf(s, c, from + 1)
  }

  /** Reads the list body written by `Items` for a non-empty list. */
  function ParseList(m: string): Option<seq<string>>
    decreases |m|
  {
    if |m| < 2 || m[0] != '"' then None
    else
      var j := IndexOf(m, '"', 1);
      if j == |m| then None
      else
        var rest := m[j + 1..];
        if rest == [] then Some([m[1..j]])
        else if |rest| >= 2 && rest[..2] == ", " then
          match ParseList(rest[2..])
          case Some(more) => Some([m[1..j]] + more)
          case None => None
        else None
  }

  /** `json.loads` on the two document shapes this pipeline writes; any other
      text is a decode error (`None`). */
  function Loads(s: string): (r: Option<FlagDoc>)
    ensures r == Some(NoIssues) <==> s == "{}"
    ensures r.Some? && s != "{}" ==>
              |s| >= |IssuesOpen| + |IssuesClose| && s[..|IssuesOpen|] == IssuesOpen &&
              s[|s| - |IssuesClose|..] == IssuesClose
  {
    if s == "{}" then Some(NoIssues)
    else if |s| >= |IssuesOpen| + |IssuesClose| && s[..|IssuesOpen|] == IssuesOpen &&
            s[|s| - |IssuesClose|..] == IssuesClose then
      var body := s[|IssuesOpen|..|s| - |IssuesClose|];
      if body == [] then Some(Issues([]))
      else
        match ParseList(body)
        case Some(tags) => Some(Issues(tags))
        case None => None
    else None
  }

  lemma IndexOfQuoted(t: string, tail: string)
    requires '"' !in t
    ensures IndexOf(Quote(t) + tail, '"', 1) == |t| + 1
  {
    var s := Quote(t) + tail;
    assert s[|t| + 1] == '"';
    assert forall j :: 1 <= j < |t| + 1 ==> s[j] == t[j - 1];
  }

  /** Reading a last quoted item. */
  lemma ParseQuotedLast(t: string)
    requires '"' !in t
    ensures ParseList(Quote(t)) == Some([t])
  {
    var m := Quote(t);
    IndexOfQuoted(t, "");
    assert m + "" == m;
    assert m[1..|t| + 1] == t;
  }

  /** One step of `ParseList`: a quoted item closed at `j`, then ", ". */
  lemma ParseListStep(m: string, j: nat)
    requires |m| >= 2 && m[0] == '"' && IndexOf(m, '"', 1) == j
    requires j + 3 <= |m| && m[j + 1..j + 3] == ", "
    ensures ParseList(m) == match ParseList(m[j + 3..])
                            case Some(more) => Some([m[1..j]] + more)
                            case None => None
  {
    var rest := m[j + 1..];
    assert rest[..2] == ", " && rest[2..] == m[j + 3..];
  }

  /** Reading a quoted item followed by a separator and more items. */
  lemma ParseQuotedNext(t: string, rest: string, more: seq<string>)
    requires '"' !in t && ParseList(rest) == Some(more)
    ensures ParseList(Quote(t) + ", " + rest) == Some([t] + more)
  {
    var m := Quote(t) + ", " + rest;
    IndexOfQuoted(t, ", " + rest);
    assert m == Quote(t) + (", " + rest);
    assert m[|t| + 2..|t| + 4] == ", " && m[|t| + 4..] == rest;
    assert m[1..|t| + 1] == t;
    ParseListStep(m, |t| + 1);
  }

  lemma {:induction false} ParseItems(tags: seq<string>)
    requires tags != []
    requires forall i :: 0 <= i < |tags| ==> '"' !in tags[i]
    ensures ParseList(Items(tags)) == Some(tags)
  {
    if |tags| == 1 {
      ParseQuotedLast(tags[0]);
      assert tags == [tags[0]];
    } else {
      ParseItems(tags[1..]);
      ParseQuotedNext(tags[0], Items(tags[1..]), tags[1..]);
      assert [tags[0]] + tags[1..] == tags;
    }
  }

  /** Dumping tags and loading the text back gives the same document, so
      `.get("issues", [])` gives the same tags. */
  lemma LoadsRender(flags: seq<string>)
    requires forall i :: 0 <= i < |flags| ==> PlainTag(flags[i])
    ensures Loads(Render(Dumps(flags))) == Some(Dumps(flags))
    ensures Render(Dumps(flags)) == "{}" <==> flags == []
  {
    if flags != [] {
      var s := Render(Dumps(flags));
      var body := Items(flags);
      assert s[..|IssuesOpen|] == IssuesOpen;
      assert s[|s| - |IssuesClose|..] == IssuesClose;
      assert s[|IssuesOpen|..|s| - |IssuesClose|] == body;
      assert body != [] by { assert body[0] == '"'; }
      forall i | 0 <= i < |flags| ensures '"' !in flags[i] {
        assert PlainTag(flags[i]);
      }
      ParseItems(flags);
      assert s != "{}" by { assert |s| > 2; }
    }
  }

  /** `if is_dup and "duplicate_candidate" not in flags: flags.append(...)`. */
  function MergeDuplicate(flags: seq<string>, isDuplicate: bool): (r: seq<string>)
    ensures DuplicateCandidate in r <==> isDuplicate || DuplicateCandidate in flags
    ensures |flags| <= |r| <= |flags| + 1 && r[..|flags|] == flags
    ensures forall t :: t in r && t != DuplicateCandidate ==> t in flags
    ensures NoRepeats(flags) ==> NoRepeats(r)
  {
    if isDuplicate && DuplicateCandidate !in flags then flags + [DuplicateCandidate] else flags
  }

  /** The four tags are written verbatim by `json.dumps`. */
  lemma KnownTagsPlain(flags: seq<string>)
    requires forall i :: 0 <= i < |flags| ==> KnownTag(flags[i])
    ensures forall i :: 0 <= i < |flags| ==> PlainTag(flags[i])
  {
    forall i | 0 <= i < |flags|
      ensures PlainTag(flags[i])
    {
      KnownTagShape(flags[i]);
    }
  }

  predicate WordChar(c: char) {
    'a' <= c <= 'z' || c == '_'
  }

  lemma KnownTagShape(t: string)
    requires KnownTag(t)
    ensures |t| >= 12 && forall i :: 0 <= i < |t| ==> WordChar(t[i])
  {
  }

  /** None of the shorter tags starts where it could fit in a longer one. */
  lemma KnownTagsApart()
    ensures !Contains(MissingTimezone, OutOfOrder)
    ensures !Contains(InvalidDateFormat, OutOfOrder)
    ensures !Contains(DuplicateCandidate, OutOfOrder)
    ensures !Contains(InvalidDateFormat, MissingTimezone)
    ensures !Contains(DuplicateCandidate, MissingTimezone)
  {
    NotContainsByFirst(MissingTimezone, OutOfOrder);
    NotContainsByFirst(InvalidDateFormat, OutOfOrder);
    NotContainsByFirst(DuplicateCandidate, OutOfOrder);
    NotContainsByFirst(InvalidDateFormat, MissingTimezone);
    NotContainsByFirst(DuplicateCandidate, MissingTimezone);
  }

  /** No tag occurs inside another one. */
  lemma KnownTagInTag(t: string, k: string)
    requires KnownTag(t) && KnownTag(k) && Contains(t, k)
    ensures t == k
  {
    if |t| < |k| {
      ContainsShorter(t, k);
    } else if |t| == |k| {
      var i :| 0 <= i <= |t| - |k| && OccursAt(t, k, i);
      assert t[0..|k|] == t;
    } else {
      KnownTagsApart();
    }
  }

  /** A non-empty run of word characters, as every tag is. */
  predicate IsWord(k: string) {
    k != [] && forall i :: 0 <= i < |k| ==> WordChar(k[i])
  }

  /** Splitting a text at punctuation, for the purpose of finding a word. */
  lemma AcrossPunctuation(x: string, p: string, y: string, k: string)
    requires IsWord(k) && p != []
    requires forall i :: 0 <= i < |p| ==> !WordChar(p[i])
    ensures Contains(x + p + y, k) <==> Contains(x, k) || Contains(y, k)
  {
    ContainsAcross(x, p, y, k);
  }

  /** A word occurs in a quoted text exactly when it occurs in the text. */
  lemma QuotedWord(t: string, k: string)
    requires IsWord(k)
    ensures Contains(Quote(t), k) <==> Contains(t, k)
  {
    assert Quote(t) == [] + "\"" + (t + "\"" + []);
    AcrossPunctuation([], "\"", t + "\"" + [], k);
    AcrossPunctuation(t, "\"", [], k);
    ContainsShorter([], k);
  }

  lemma QuoteContains(t: string, k: string)
    requires KnownTag(t) && KnownTag(k)
    ensures Contains(Quote(t), k) <==> t == k
  {
    KnownTagShape(k);
    QuotedWord(t, k);
    if t == k {
      assert OccursAt(t, k, 0);
    } else if Contains(t, k) {
      KnownTagInTag(t, k);
    }
  }

  /** A known tag occurs in the list body exactly when it is one of the
      listed tags. */
  lemma {:induction false} ItemsContain(tags: seq<string>, k: string)
    requires forall i :: 0 <= i < |tags| ==> KnownTag(tags[i])
    requires KnownTag(k)
    ensures Contains(Items(tags), k) <==> k in tags
  {
    KnownTagShape(k);
    if tags == [] {
      ContainsShorter("", k);
    } else if |tags| == 1 {
      QuoteContains(tags[0], k);
    } else {
      QuoteContains(tags[0], k);
      ItemsContain(tags[1..], k);
      AcrossPunctuation(Quote(tags[0]), ", ", Items(tags[1..]), k);
      assert tags == [tags[0]] + tags[1..];
    }
  }

  /** A word longer than `issues` occurs in a rendered document exactly when
      it occurs in the list body. */
  lemma RenderedWord(m: string, k: string)
    requires IsWord(k) && |k| > 6
    ensures Contains(IssuesOpen + m + IssuesClose, k) <==> Contains(m, k)
  {
    assert IssuesOpen + m + IssuesClose == [] + "{\"" + ("issues" + "\": [" + (m + "]}" + []));
    AcrossPunctuation([], "{\"", "issues" + "\": [" + (m + "]}" + []), k);
    AcrossPunctuation("issues", "\": [", m + "]}" + [], k);
    AcrossPunctuation(m, "]}", [], k);
    ContainsShorter([], k);
    ContainsShorter("issues", k);
  }

  /** The report layer's substring test on a stored flag text sees a known tag
      exactly when the record carries it. */
  lemma RenderContains(flags: seq<string>, k: string)
    requires forall i :: 0 <= i < |flags| ==> KnownTag(flags[i])
    requires KnownTag(k)
    ensures Contains(Render(Dumps(flags)), k) <==> k in flags
  {
    KnownTagShape(k);
    if flags == [] {
      ContainsShorter("{}", k);
    } else {
      ItemsContain(flags, k);
      RenderedWord(Items(flags), k);
    }
  }
  /** The stored text after the duplicate merge names a tag iff the loaded
      tags held it, or it is `duplicate_candidate` and the record was marked. */
  lemma MergedFlagsText(tags: seq<string>, isDuplicate: bool, k: string)
    requires forall j :: 0 <= j < |tags| ==> KnownTag(tags[j])
    requires KnownTag(k)
    ensures Contains(Render(Dumps(MergeDuplicate(tags, isDuplicate))), k) <==> k in tags || (k == DuplicateCandidate && isDuplicate)
  {
    var merged := MergeDuplicate(tags, isDuplicate);
    forall j | 0 <= j < |merged|
      ensures KnownTag(merged[j])
    {
      if j >= |tags| {
        assert merged[j] == DuplicateCandidate;
      } else {
        assert merged[j] == tags[j];
      }
    }
    RenderContains(merged, k);
  }

}
