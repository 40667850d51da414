/** `TextUtils` of js/utils.js: truncation, tag parsing, slugs and the trivial case of highlighting. */
module TextUtils {
  import opened Strings
  import opened Sequences

  /** `truncate(text, maxLength, suffix = '...')`; `substring` treats a negative length as 0. */
  function Truncate(text: string, maxLength: int, suffix: string := "..."): (r: string)
    ensures text == "" ==> r == ""
    ensures |text| <= maxLength ==> r == text
    ensures text != "" && |text| > maxLength ==> r == text[..(if maxLength < 0 then 0 else maxLength)] + suffix
    ensures maxLength >= 0 ==> |r| <= maxLength + |suffix|
  {
    if text == "" then ""
    else if |text| <= maxLength then text
    else
      var keep := if maxLength < 0 then 0 else maxLength;
      assert (text[..keep] + suffix)[..keep] == text[..keep];
      text[..keep] + suffix
  }

  /** `highlightSearchTerm` when there is nothing to highlight: the text comes back unchanged. */
  function HighlightSearchTerm(text: string, searchTerm: string): (r: string)
    requires searchTerm == "" || text == ""
    ensures r == text
  {
    text
  }

  /** `s.split(sep)` for a one-character separator: the pieces between separators, empty ones included. */
  function Split(s: string, sep: char): (parts: seq<string>)
    ensures |parts| >= 1
    ensures forall p :: p in parts ==> sep !in p
  {
    if s == [] then [""]
    else
      var rest := Split(s[1..], sep);
      if s[0] == sep then [""] + rest
      else
        assert forall p :: p in rest[1..] ==> p in rest;
        [[s[0]] + rest[0]] + rest[1..]
  }

  /** `parts.join(sep)`. */
  function Join(parts: seq<string>, sep: string): string
  {
    if |parts| == 0 then ""
    else if |parts| == 1 then parts[0]
    else parts[0] + sep + Join(parts[1..], sep)
  }

  /** Splitting loses nothing: joining the pieces with the separator gives the string back. */
  lemma {:induction false} SplitJoin(s: string, sep: char)
    ensures Join(Split(s, sep), [sep]) == s
  {
    if s != [] {
      SplitJoin(s[1..], sep);
      var rest := Split(s[1..], sep);
      if s[0] == sep {
        assert ([""] + rest)[1..] == rest;
      } else {
        var parts := [[s[0]] + rest[0]] + rest[1..];
        if |rest| == 1 {
          assert Join(parts, [sep]) == [s[0]] + rest[0];
        } else {
          assert parts[1..] == rest[1..];
          assert Join(rest, [sep]) == rest[0] + [sep] + Join(rest[1..], [sep]);
        }
      }
    }
  }

  lemma {:induction false} SplitNoSeparator(s: string, sep: char)
    requires sep !in s
    ensures Split(s, sep) == [s]
  {
    if s != [] {
      assert s[0] in s && forall c :: c in s[1..] ==> c in s;
      SplitNoSeparator(s[1..], sep);
      assert [s[0]] + s[1..] == s;
    }
  }

  /** A separator-free first piece comes out of `split` whole. */
  lemma {:induction false} SplitAfterPiece(a: string, sep: char, b: string)
    requires sep !in a
    ensures Split(a + [sep] + b, sep) == [a] + Split(b, sep)
  {
    if a == [] {
      assert a + [sep] + b == [sep] + b;
      assert ([sep] + b)[1..] == b;
    } else {
      assert (a + [sep] + b)[1..] == a[1..] + [sep] + b;
      SplitAfterPiece(a[1..], sep, b);
      assert [a[0]] + a[1..] == a;
    }
  }

  /** `.map(tag => tag.trim())`. */
  function TrimAll(pieces: seq<string>): (r: seq<string>)
    ensures |r| == |pieces|
    ensures forall i :: 0 <= i < |pieces| ==> r[i] == Trim(pieces[i])
  {
    seq(|pieces|, i requires 0 <= i < |pieces| => Trim(pieces[i]))
  }

  predicate NonEmpty(t: string)
  {
    t != ""
  }

  /** `.map(tag => tag.trim()).filter(tag => tag.length > 0)`. */
  function TrimmedNonEmpty(pieces: seq<string>): (tags: seq<string>)
    ensures |tags| <= |pieces|
    ensures forall i :: 0 <= i < |tags| ==> tags[i] != ""
  {
    if pieces == [] then []
    else
      var t := Trim(pieces[0]);
      var rest := TrimmedNonEmpty(pieces[1..]);
      if t != "" then [t] + rest else rest
  }

  /** The recursion is the `map` of `trim` followed by the `filter` of the non-empty pieces. */
  lemma {:induction false} TrimmedNonEmptyIsMapFilter(pieces: seq<string>)
    ensures TrimmedNonEmpty(pieces) == Filter(TrimAll(pieces), NonEmpty)
  {
    if pieces != [] {
      TrimmedNonEmptyIsMapFilter(pieces[1..]);
      var all := TrimAll(pieces);
      var rest := Filter(all[1..], NonEmpty);
      assert all[1..] == TrimAll(pieces[1..]);
      assert rest == TrimmedNonEmpty(pieces[1..]);
      assert Filter(all, NonEmpty) == if NonEmpty(all[0]) then [all[0]] + rest else rest;
    }
  }

  /** A usable tag: non-empty, trimmed and free of commas. */
  predicate IsTag(t: string)
  {
    t != "" && IsTrimmed(t) && ',' !in t
  }

  /** `parseTags(tagString)`: the comma-separated pieces, trimmed, empty ones dropped. */
  function ParseTags(tagString: string): (tags: seq<string>)
    ensures tagString == "" ==> tags == []
    ensures forall t :: t in tags ==> IsTag(t)
  {
    if tagString == "" then []
    else
      var tags := TrimmedNonEmpty(Split(tagString, ','));
      TrimmedNonEmptyAreTrimmed(Split(tagString, ','));
      assert forall t :: t in tags ==> ',' !in t by {
        TrimmedNonEmptyNoSeparator(Split(tagString, ','), ',');
      }
      tags
  }

  lemma {:induction false} TrimmedNonEmptyAreTrimmed(pieces: seq<string>)
    ensures forall t :: t in TrimmedNonEmpty(pieces) ==> IsTrimmed(t)
  {
    if pieces != [] {
      TrimmedNonEmptyAreTrimmed(pieces[1..]);
      TrimTrims(pieces[0]);
    }
  }

  lemma {:induction false} TrimmedNonEmptyNoSeparator(pieces: seq<string>, sep: char)
    requires forall p :: p in pieces ==> sep !in p
    ensures forall t :: t in TrimmedNonEmpty(pieces) ==> sep !in t
  {
    if pieces != [] {
      TrimmedNonEmptyNoSeparator(pieces[1..], sep);
      var a := TrimStart(pieces[0]);
      assert forall c :: c in Trim(pieces[0]) ==> c in a;
      assert forall c :: c in a ==> c in pieces[0];
    }
  }

  lemma TrimmedNonEmptyCons(p: string, rest: seq<string>)
    requires Trim(p) != ""
    ensures TrimmedNonEmpty([p] + rest) == [Trim(p)] + TrimmedNonEmpty(rest)
  {
    assert ([p] + rest)[1..] == rest;
  }

  lemma Regroup<T>(pad: seq<T>, a: seq<T>, c: T, b: seq<T>, rest: seq<T>)
    ensures pad + (a + ([c] + b) + rest) == (pad + a) + [c] + (b + rest)
  {
    var lhs := pad + (a + ([c] + b) + rest);
    var rhs := (pad + a) + [c] + (b + rest);
    assert |lhs| == |rhs|;
    forall i | 0 <= i < |lhs| ensures lhs[i] == rhs[i] {
      if i < |pad| + |a| {
      } else if i == |pad| + |a| {
      } else {
        assert rhs[i] == (b + rest)[i - |pad| - |a| - 1];
      }
    }
  }

  lemma Assoc<T>(x: seq<T>, y: seq<T>, z: seq<T>)
    ensures x + (y + z) == (x + y) + z
  {
  }

  lemma ConcatTail<T>(a: seq<T>, b: seq<T>)
    requires a != []
    ensures (a + b)[0] == a[0] && (a + b)[1..] == a[1..] + b
  {
  }

  lemma HeadTail<T>(s: seq<T>)
    requires s != []
    ensures [s[0]] + s[1..] == s
  {
  }

  lemma JoinShape(pad: string, tags: seq<string>)
    requires |tags| >= 2
    ensures pad + Join(tags, ", ") == (pad + tags[0]) + [','] + (" " + Join(tags[1..], ", "))
  {
    assert ", " == [','] + " ";
    Regroup(pad, tags[0], ',', " ", Join(tags[1..], ", "));
  }

  lemma PaddedTag(pad: string, t: string)
    requires pad == "" || pad == " "
    requires IsTag(t)
    ensures ',' !in pad + t
    ensures Trim(pad + t) == t
  {
    var padded := pad + t;
    forall i | 0 <= i < |padded| ensures padded[i] != ',' {
      if i >= |pad| {
        assert padded[i] == t[i - |pad|];
      }
    }
    assert forall i :: 0 <= i < |pad| ==> IsSpace(pad[i]);
    TrimStartPadded(pad, t);
    TrimEndPadded(t, []);
    assert t + [] == t;
  }

  lemma ParseOneTag(tag: string, pad: string)
    requires IsTag(tag)
    requires pad == "" || pad == " "
    ensures TrimmedNonEmpty(Split(pad + tag, ',')) == [tag]
  {
    PaddedTag(pad, tag);
    SplitNoSeparator(pad + tag, ',');
    TrimmedNonEmptyCons(pad + tag, []);
    assert [tag] + [] == [tag];
  }

  lemma ParseFirstTag(tags: seq<string>, pad: string)
    requires |tags| >= 2 && IsTag(tags[0])
    requires pad == "" || pad == " "
    requires TrimmedNonEmpty(Split(" " + Join(tags[1..], ", "), ',')) == tags[1..]
    ensures TrimmedNonEmpty(Split(pad + Join(tags, ", "), ',')) == tags
  {
    var head := pad + tags[0];
    var restPieces := Split(" " + Join(tags[1..], ", "), ',');
    assert Split(pad + Join(tags, ", "), ',') == [head] + restPieces by {
      PaddedTag(pad, tags[0]);
      JoinShape(pad, tags);
      SplitAfterPiece(head, ',', " " + Join(tags[1..], ", "));
    }
    assert Trim(head) == tags[0] by {
      PaddedTag(pad, tags[0]);
    }
    TrimmedNonEmptyCons(head, restPieces);
    HeadTail(tags);
  }

  lemma {:induction false} ParseJoined(tags: seq<string>, pad: string)
    requires |tags| >= 1 && forall t :: t in tags ==> IsTag(t)
    requires pad == "" || pad == " "
    ensures TrimmedNonEmpty(Split(pad + Join(tags, ", "), ',')) == tags
  {
    if |tags| == 1 {
      ParseOneTag(tags[0], pad);
    } else {
      assert forall t :: t in tags[1..] ==> t in tags;
      ParseJoined(tags[1..], " ");
      ParseFirstTag(tags, pad);
    }
  }

  /** The tag field shows `tags.join(', ')`; parsing it back gives the same tags. */
  lemma ParseTagsRoundTrip(tags: seq<string>)
    requires forall t :: t in tags ==> IsTag(t)
    ensures ParseTags(Join(tags, ", ")) == tags
  {
    if tags != [] {
      ParseJoined(tags, "");
      assert "" + Join(tags, ", ") == Join(tags, ", ");
      assert Join(tags, ", ") != "" by {
        if |tags| > 1 { assert |Join(tags, ", ")| >= |tags[0]|; }
      }
    }
  }

  /** A string without commas is one piece: its trimmed text is the only tag, if it is not blank. */
  lemma ParseTagsOnePiece(a: string)
    requires ',' !in a
    ensures ParseTags(a) == if Trim(a) == "" then [] else [Trim(a)]
  {
    if a != "" {
      SplitNoSeparator(a, ',');
      assert [a][1..] == [];
    }
  }

  /** Parsing a piece, a comma and the rest gives the piece's tags followed by the rest's. */
  lemma ParseTagsAtComma(a: string, b: string)
    requires ',' !in a
    ensures ParseTags(a + [','] + b) == ParseTags(a) + ParseTags(b)
  {
    var s := a + [','] + b;
    assert |s| > 0;
    SplitAfterPiece(a, ',', b);
    ParseTagsPieces(s);
    ParseTagsPieces(b);
    TrimmedNonEmptyAppend(a, Split(b, ','));
    ParseTagsPiece(a);
  }

  /** `parseTags` is the trim-and-drop of the comma pieces, the empty string included. */
  lemma ParseTagsPieces(s: string)
    ensures ParseTags(s) == TrimmedNonEmpty(Split(s, ','))
    ensures ParseTags(s) == Filter(TrimAll(Split(s, ',')), NonEmpty)
  {
    TrimmedNonEmptyIsMapFilter(Split(s, ','));
    if s == "" {
      assert Split(s, ',') == [""];
      assert [""][1..] == [];
    }
  }

  lemma ParseTagsPiece(a: string)
    requires ',' !in a
    ensures ParseTags(a) == TrimmedNonEmpty([a])
  {
    if a == "" {
      assert [a][1..] == [];
    } else {
      SplitNoSeparator(a, ',');
    }
  }

  lemma TrimmedNonEmptyAppend(p: string, rest: seq<string>)
    ensures TrimmedNonEmpty([p] + rest) == TrimmedNonEmpty([p]) + TrimmedNonEmpty(rest)
  {
    if Trim(p) != "" {
      TrimmedNonEmptyCons(p, rest);
      TrimmedNonEmptyCons(p, []);
      assert [p] + [] == [p];
      assert [Trim(p)] + [] == [Trim(p)];
    } else {
      TrimmedNonEmptyBlank(p, rest);
      TrimmedNonEmptyBlank(p, []);
      assert [p] + [] == [p];
      assert [] + TrimmedNonEmpty(rest) == TrimmedNonEmpty(rest);
    }
  }

  lemma TrimmedNonEmptyBlank(p: string, rest: seq<string>)
    requires Trim(p) == ""
    ensures TrimmedNonEmpty([p] + rest) == TrimmedNonEmpty(rest)
  {
    ConcatTail([p], rest);
    assert [p][1..] == [];
  }

  lemma PaddedHasNoComma(a: string)
    requires ',' !in a
    ensures ',' !in " " + a + " "
  {
    assert forall c :: c in " " + a + " " ==> c == ' ' || c in a;
  }

  lemma TagFieldShape(a: string, b: string)
    ensures " " + a + " , ," + b == (" " + a + " ") + [','] + (" " + [','] + b)
  {
    var lhs := " " + a + " , ," + b;
    var rhs := (" " + a + " ") + [','] + (" " + [','] + b);
    assert |lhs| == |rhs|;
    forall i | 0 <= i < |lhs| ensures lhs[i] == rhs[i] {
      if i > |a| + 4 {
        assert lhs[i] == b[i - |a| - 5] == rhs[i];
      }
    }
  }

  lemma ParsePaddedTag(a: string)
    requires IsTag(a)
    ensures ',' !in " " + a + " "
    ensures ParseTags(" " + a + " ") == [a]
  {
    PaddedHasNoComma(a);
    TrimPadded(" ", a, " ");
    ParseTagsOnePiece(" " + a + " ");
  }

  lemma ParseBlankThenTag(b: string)
    requires IsTag(b)
    ensures ParseTags(" " + [','] + b) == [b]
  {
    ParseTagsAtComma(" ", b);
    TrimEmpty(" ");
    ParseTagsOnePiece(" ");
    TrimTrims(b);
    ParseTagsOnePiece(b);
  }

  /** Blanks around a tag and a blank piece between commas are ignored: " a , ,b" gives [a, b]. */
  lemma ParseTagsIgnoresBlanks(a: string, b: string)
    requires IsTag(a) && IsTag(b)
    ensures ParseTags(" " + a + " , ," + b) == [a, b]
  {
    ParsePaddedTag(a);
    ParseBlankThenTag(b);
    TagFieldShape(a, b);
    ParseTagsAtComma(" " + a + " ", " " + [','] + b);
  }

  /** `\w` in a regular expression: an ASCII letter, digit or underscore. */
  predicate IsWordChar(c: char)
  {
    'a' <= c <= 'z' || 'A' <= c <= 'Z' || '0' <= c <= '9' || c == '_'
  }

  /** What a slug consists of: lower-case word characters and hyphens. */
  predicate IsSlugChar(c: char)
  {
    ('a' <= c <= 'z' || '0' <= c <= '9' || c == '_' || c == '-')
  }

  /** What `[\w\s-]` matches: the characters `generateSlug` keeps. */
  predicate IsKeptChar(c: char)
  {
    IsWordChar(c) || IsSpace(c) || c == '-'
  }

  /** `.replace(/[^\w\s-]/g, '')`. */
  function RemoveSpecial(s: string): (r: string)
    ensures forall i :: 0 <= i < |r| ==> r[i] in s && (IsWordChar(r[i]) || IsSpace(r[i]) || r[i] == '-')
    ensures (forall i :: 0 <= i < |s| ==> IsSlugChar(s[i])) ==> r == s
  {
    if s == [] then []
    else
      var rest := RemoveSpecial(s[1..]);
      assert forall c :: c in rest ==> c in s;
      if IsWordChar(s[0]) || IsSpace(s[0]) || s[0] == '-' then [s[0]] + rest else rest
  }

  /** Removing the special characters is filtering by what `[\w\s-]` matches. */
  lemma {:induction false} RemoveSpecialIsFilter(s: string)
    ensures RemoveSpecial(s) == Filter(s, IsKeptChar)
  {
    if s != [] {
      RemoveSpecialIsFilter(s[1..]);
    }
  }

  /** The runs `generateSlug` collapses: `\s+` and `-+`. */
  datatype RunKind = Whitespace | Hyphens

  predicate InRun(kind: RunKind, c: char)
  {
    match kind
    case Whitespace => IsSpace(c)
    case Hyphens => c == '-'
  }

  /** What is left after the rest of a run. */
  function DropRun(s: string, kind: RunKind): (r: string)
    ensures |r| <= |s| && r == s[|s| - |r|..]
    ensures r == [] || !InRun(kind, r[0])
  {
    if s != [] && InRun(kind, s[0]) then DropRun(s[1..], kind) else s
  }

  lemma SuffixIn<T>(s: seq<T>, t: seq<T>)
    requires |t| <= |s| && t == s[|s| - |t|..]
    ensures forall c :: c in t ==> c in s
  {
    forall c | c in t ensures c in s {
      var i :| 0 <= i < |t| && t[i] == c;
      assert s[|s| - |t| + i] == c;
    }
  }

  /** `.replace(/\s+/g, '-')` and `.replace(/-+/g, '-')`: every maximal run becomes a single hyphen. */
  function ReplaceRuns(s: string, kind: RunKind): (r: string)
    ensures forall i :: 0 <= i < |r| ==> r[i] == '-' || (r[i] in s && !InRun(kind, r[i]))
    ensures s != [] && !InRun(kind, s[0]) ==> r != [] && r[0] == s[0]
    ensures s == [] <==> r == []
    decreases |s|
  {
    if s == [] then []
    else if InRun(kind, s[0]) then
      var t := DropRun(s[1..], kind);
      SuffixIn(s, t);
      "-" + ReplaceRuns(t, kind)
    else
      SuffixIn(s, s[1..]);
      [s[0]] + ReplaceRuns(s[1..], kind)
  }

  /** No two hyphens in a row. */
  predicate NoDoubleHyphen(s: string)
  {
    forall i :: 0 <= i < |s| - 1 ==> !(s[i] == '-' && s[i + 1] == '-')
  }

  lemma {:induction false} CollapsedHasNoDoubleHyphen(s: string)
    ensures NoDoubleHyphen(ReplaceRuns(s, Hyphens))
    decreases |s|
  {
    if s != [] {
      var r := ReplaceRuns(s, Hyphens);
      var rest: string;
      if s[0] == '-' {
        var t := DropRun(s[1..], Hyphens);
        CollapsedHasNoDoubleHyphen(t);
        rest := ReplaceRuns(t, Hyphens);
        assert r == "-" + rest;
        assert rest == [] || rest[0] != '-';
      } else {
        CollapsedHasNoDoubleHyphen(s[1..]);
        rest := ReplaceRuns(s[1..], Hyphens);
        assert r == [s[0]] + rest;
      }
      forall i | 1 <= i < |r| - 1
        ensures !(r[i] == '-' && r[i + 1] == '-')
      {
        assert r[i] == rest[i - 1] && r[i + 1] == rest[i];
      }
    }
  }

  /** A string with nothing to replace is left as it is. */
  lemma {:induction false} ReplaceRunsUnchanged(s: string, kind: RunKind)
    requires kind == Whitespace ==> forall i :: 0 <= i < |s| ==> !IsSpace(s[i])
    requires kind == Hyphens ==> NoDoubleHyphen(s)
    ensures ReplaceRuns(s, kind) == s
  {
    if s != [] {
      var t := s[1..];
      if kind == Hyphens {
        forall i | 0 <= i < |t| - 1 ensures !(t[i] == '-' && t[i + 1] == '-') {
          assert t[i] == s[i + 1] && t[i + 1] == s[i + 2];
        }
      } else {
        forall i | 0 <= i < |t| ensures !IsSpace(t[i]) {
          assert t[i] == s[i + 1];
        }
      }
      ReplaceRunsUnchanged(t, kind);
      if InRun(kind, s[0]) {
        assert kind == Hyphens && s[0] == '-';
        assert t == [] || t[0] != '-' by {
          if t != [] { assert t[0] == s[1]; }
        }
        assert DropRun(t, kind) == t;
        assert ReplaceRuns(s, kind) == "-" + t;
      } else {
        assert ReplaceRuns(s, kind) == [s[0]] + t;
      }
      assert s == [s[0]] + t;
    }
  }

  /** A run followed by something that does not continue it is dropped whole. */
  lemma {:induction false} DropRunPrefix(run: string, b: string, kind: RunKind)
    requires forall i :: 0 <= i < |run| ==> InRun(kind, run[i])
    requires b == [] || !InRun(kind, b[0])
    ensures DropRun(run + b, kind) == b
  {
    if run == [] {
      assert run + b == b;
    } else {
      assert (run + b)[1..] == run[1..] + b;
      DropRunPrefix(run[1..], b, kind);
    }
  }

  /** A string that ends outside a run is still the head of what is left once the run is dropped. */
  lemma {:induction false} DropRunConcat(x: string, b: string, kind: RunKind)
    requires x != [] && !InRun(kind, x[|x| - 1])
    ensures DropRun(x + b, kind) == DropRun(x, kind) + b
    ensures DropRun(x, kind) != [] && DropRun(x, kind)[|DropRun(x, kind)| - 1] == x[|x| - 1]
    decreases |x|
  {
    var xb := x + b;
    assert xb[0] == x[0];
    if InRun(kind, x[0]) {
      var y := x[1..];
      assert |x| >= 2;
      assert y[|y| - 1] == x[|x| - 1];
      assert xb[1..] == y + b;
      assert DropRun(xb, kind) == DropRun(y + b, kind);
      assert DropRun(x, kind) == DropRun(y, kind);
      DropRunConcat(y, b, kind);
    } else {
      assert DropRun(xb, kind) == xb;
      assert DropRun(x, kind) == x;
    }
  }

  /** Each maximal run of the kind becomes exactly one hyphen. */
  lemma ReplaceRunsRun(run: string, b: string, kind: RunKind)
    requires run != [] && forall i :: 0 <= i < |run| ==> InRun(kind, run[i])
    requires b == [] || !InRun(kind, b[0])
    ensures ReplaceRuns(run + b, kind) == "-" + ReplaceRuns(b, kind)
  {
    assert (run + b)[0] == run[0];
    assert (run + b)[1..] == run[1..] + b;
    DropRunPrefix(run[1..], b, kind);
  }

  /** Cutting the string after a character outside any run cuts the result at the same place. */
  lemma {:induction false} ReplaceRunsConcat(a: string, b: string, kind: RunKind)
    requires a == [] || !InRun(kind, a[|a| - 1])
    ensures ReplaceRuns(a + b, kind) == ReplaceRuns(a, kind) + ReplaceRuns(b, kind)
    decreases |a|
  {
    if a == [] {
      assert a + b == b;
    } else if InRun(kind, a[0]) {
      var t := DropRun(a[1..], kind);
      assert a[1..] != [] && a[1..][|a[1..]| - 1] == a[|a| - 1];
      DropRunConcat(a[1..], b, kind);
      ReplaceRunsConcat(t, b, kind);
      RunStepConcat(a, b, kind);
    } else {
      ReplaceRunsConcat(a[1..], b, kind);
      KeptStepConcat(a, b, kind);
    }
  }

  lemma RunStepConcat(a: string, b: string, kind: RunKind)
    requires a != [] && InRun(kind, a[0])
    requires DropRun(a[1..] + b, kind) == DropRun(a[1..], kind) + b
    requires var t := DropRun(a[1..], kind);
      ReplaceRuns(t + b, kind) == ReplaceRuns(t, kind) + ReplaceRuns(b, kind)
    ensures ReplaceRuns(a + b, kind) == ReplaceRuns(a, kind) + ReplaceRuns(b, kind)
  {
    var t := DropRun(a[1..], kind);
    ConcatTail(a, b);
    ReplaceRunsAtRun(a + b, kind);
    ReplaceRunsAtRun(a, kind);
    Assoc("-", ReplaceRuns(t, kind), ReplaceRuns(b, kind));
  }

  lemma ReplaceRunsAtRun(s: string, kind: RunKind)
    requires s != [] && InRun(kind, s[0])
    ensures ReplaceRuns(s, kind) == "-" + ReplaceRuns(DropRun(s[1..], kind), kind)
  {
  }

  lemma KeptStepConcat(a: string, b: string, kind: RunKind)
    requires a != [] && !InRun(kind, a[0])
    requires ReplaceRuns(a[1..] + b, kind) == ReplaceRuns(a[1..], kind) + ReplaceRuns(b, kind)
    ensures ReplaceRuns(a + b, kind) == ReplaceRuns(a, kind) + ReplaceRuns(b, kind)
  {
    ConcatTail(a, b);
    assert ReplaceRuns(a + b, kind) == [a[0]] + ReplaceRuns(a[1..] + b, kind);
    assert ReplaceRuns(a, kind) == [a[0]] + ReplaceRuns(a[1..], kind);
    Assoc([a[0]], ReplaceRuns(a[1..], kind), ReplaceRuns(b, kind));
  }

  lemma {:induction false} FilterDropRun(s: string, kind: RunKind, p: char -> bool)
    requires forall c :: InRun(kind, c) ==> !p(c)
    ensures Filter(DropRun(s, kind), p) == Filter(s, p)
  {
    if s != [] && InRun(kind, s[0]) {
      FilterDropRun(s[1..], kind, p);
    }
  }

  /**
   * The characters that are neither in a run nor hyphens come through in their order: whatever
   * a predicate rejecting both keeps of the result, it keeps of the input.
   */
  lemma {:induction false} ReplaceRunsKeepsOthers(s: string, kind: RunKind, p: char -> bool)
    requires forall c :: InRun(kind, c) || c == '-' ==> !p(c)
    ensures Filter(ReplaceRuns(s, kind), p) == Filter(s, p)
    decreases |s|
  {
    if s != [] {
      if InRun(kind, s[0]) {
        var t := DropRun(s[1..], kind);
        ReplaceRunsKeepsOthers(t, kind, p);
        RunStepKeepsOthers(s, kind, p);
      } else {
        ReplaceRunsKeepsOthers(s[1..], kind, p);
        KeptStepKeepsOthers(s, kind, p);
      }
    }
  }

  lemma RunStepKeepsOthers(s: string, kind: RunKind, p: char -> bool)
    requires forall c :: InRun(kind, c) || c == '-' ==> !p(c)
    requires s != [] && InRun(kind, s[0])
    requires Filter(ReplaceRuns(DropRun(s[1..], kind), kind), p) == Filter(DropRun(s[1..], kind), p)
    ensures Filter(ReplaceRuns(s, kind), p) == Filter(s, p)
  {
    var r := ReplaceRuns(s, kind);
    assert r == "-" + ReplaceRuns(DropRun(s[1..], kind), kind);
    assert r[0] == '-' && r[1..] == ReplaceRuns(DropRun(s[1..], kind), kind);
    assert !p('-') && !p(s[0]);
    FilterDropRun(s[1..], kind, p);
  }

  lemma KeptStepKeepsOthers(s: string, kind: RunKind, p: char -> bool)
    requires s != [] && !InRun(kind, s[0])
    requires Filter(ReplaceRuns(s[1..], kind), p) == Filter(s[1..], p)
    ensures Filter(ReplaceRuns(s, kind), p) == Filter(s, p)
  {
    var r := ReplaceRuns(s, kind);
    assert r == [s[0]] + ReplaceRuns(s[1..], kind);
    assert r[0] == s[0] && r[1..] == ReplaceRuns(s[1..], kind);
  }

  /** What `generateSlug` returns: lower-case word characters and single hyphens, no whitespace. */
  predicate IsSlug(s: string)
  {
    (forall i :: 0 <= i < |s| ==> IsSlugChar(s[i])) && NoDoubleHyphen(s)
  }

  /** The stages of `generateSlug` before the final `trim`. */
  function SlugStages(text: string): string
  {
    ReplaceRuns(ReplaceRuns(RemoveSpecial(Lower(text)), Whitespace), Hyphens)
  }

  lemma LoweredHasNoUpper(text: string)
    ensures forall c :: c in Lower(text) ==> !IsUpper(c)
  {
    var lowered := Lower(text);
    forall c | c in lowered ensures !IsUpper(c) {
      var i :| 0 <= i < |lowered| && lowered[i] == c;
    }
  }

  lemma KeptChars(lowered: string)
    requires forall c :: c in lowered ==> !IsUpper(c)
    ensures forall c :: c in RemoveSpecial(lowered) ==> IsSlugChar(c) || IsSpace(c)
  {
    var kept := RemoveSpecial(lowered);
    forall c | c in kept ensures IsSlugChar(c) || IsSpace(c) {
      var i :| 0 <= i < |kept| && kept[i] == c;
    }
  }

  lemma HyphenatedChars(kept: string)
    requires forall c :: c in kept ==> IsSlugChar(c) || IsSpace(c)
    ensures forall c :: c in ReplaceRuns(kept, Whitespace) ==> IsSlugChar(c)
  {
    var hyphenated := ReplaceRuns(kept, Whitespace);
    forall c | c in hyphenated ensures IsSlugChar(c) {
      var i :| 0 <= i < |hyphenated| && hyphenated[i] == c;
    }
  }

  lemma CollapsedChars(hyphenated: string)
    requires forall c :: c in hyphenated ==> IsSlugChar(c)
    ensures forall i :: 0 <= i < |ReplaceRuns(hyphenated, Hyphens)| ==> IsSlugChar(ReplaceRuns(hyphenated, Hyphens)[i])
  {
    var collapsed := ReplaceRuns(hyphenated, Hyphens);
    forall i | 0 <= i < |collapsed| ensures IsSlugChar(collapsed[i]) {
      assert collapsed[i] == '-' || collapsed[i] in hyphenated;
    }
  }

  lemma SlugIsTrimmed(s: string)
    requires IsSlug(s)
    ensures IsTrimmed(s)
  {
    if s != [] {
      assert IsSlugChar(s[0]) && IsSlugChar(s[|s| - 1]);
    }
  }

  lemma SlugStagesGiveSlug(text: string)
    ensures IsSlug(SlugStages(text)) && IsTrimmed(SlugStages(text))
  {
    var lowered := Lower(text);
    LoweredHasNoUpper(text);
    var kept := RemoveSpecial(lowered);
    KeptChars(lowered);
    var hyphenated := ReplaceRuns(kept, Whitespace);
    HyphenatedChars(kept);
    CollapsedChars(hyphenated);
    CollapsedHasNoDoubleHyphen(hyphenated);
    SlugIsTrimmed(SlugStages(text));
  }

  /**
   * `generateSlug(text)`: lower-case, drop special characters, whitespace runs to '-', hyphen runs
   * collapsed, then `trim()` (which by then finds no whitespace to remove).
   */
  function GenerateSlug(text: string): (slug: string)
    ensures IsSlug(slug)
  {
    SlugStagesGiveSlug(text);
    TrimTrims(SlugStages(text));
    Trim(SlugStages(text))
  }

  /** Every stage of `generateSlug` leaves a slug as it is. */
  lemma SlugStagesFixSlug(s: string)
    requires IsSlug(s)
    ensures SlugStages(s) == s
  {
    SlugIsLower(s);
    SlugIsKept(s);
    SlugHasNoSpace(s);
    ReplaceRunsUnchanged(s, Whitespace);
    ReplaceRunsUnchanged(s, Hyphens);
  }

  lemma SlugIsLower(s: string)
    requires IsSlug(s)
    ensures Lower(s) == s
  {
    assert forall i :: 0 <= i < |s| ==> !IsUpper(s[i]);
  }

  lemma SlugIsKept(s: string)
    requires IsSlug(s)
    ensures RemoveSpecial(s) == s
  {
  }

  lemma SlugHasNoSpace(s: string)
    requires IsSlug(s)
    ensures forall i :: 0 <= i < |s| ==> !IsSpace(s[i])
  {
  }

  /** Generating a slug from a slug changes nothing. */
  lemma SlugIdempotent(text: string)
    ensures GenerateSlug(GenerateSlug(text)) == GenerateSlug(text)
  {
    var s := GenerateSlug(text);
    SlugStagesFixSlug(s);
    SlugStagesGiveSlug(s);
    TrimTrims(s);
  }

  /** A slug is its own slug. */
  lemma SlugFixesSlug(s: string)
    requires IsSlug(s)
    ensures GenerateSlug(s) == s
  {
    SlugStagesFixSlug(s);
    SlugIsTrimmed(s);
    TrimTrims(s);
  }

  lemma WordCharsPass(c: char)
    ensures IsWordChar(c) ==> IsKeptChar(c) && !IsSpace(c) && c != '-'
  {
  }

  /** The letters, digits and underscores of the lower-cased text are the slug's, in the same order. */
  lemma SlugKeepsWordChars(text: string)
    ensures Filter(GenerateSlug(text), IsWordChar) == Filter(Lower(text), IsWordChar)
  {
    forall c ensures IsWordChar(c) ==> IsKeptChar(c) && !IsSpace(c) && c != '-' {
      WordCharsPass(c);
    }
    var lowered := Lower(text);
    var kept := RemoveSpecial(lowered);
    var hyphenated := ReplaceRuns(kept, Whitespace);
    var collapsed := ReplaceRuns(hyphenated, Hyphens);
    RemoveSpecialIsFilter(lowered);
    FilterFilter(lowered, IsKeptChar, IsWordChar);
    ReplaceRunsKeepsOthers(kept, Whitespace, IsWordChar);
    ReplaceRunsKeepsOthers(hyphenated, Hyphens, IsWordChar);
    SlugStagesGiveSlug(text);
    TrimTrims(collapsed);
  }

  lemma PaddedWordLower(w: string)
    requires IsSlug(w)
    ensures Lower(" " + w + " ") == " " + w + " "
  {
    var padded := " " + w + " ";
    forall i | 0 <= i < |padded| ensures Lower(padded)[i] == padded[i] {
      assert i == 0 || i == |padded| - 1 || padded[i] == w[i - 1];
    }
  }

  lemma PaddedWordKept(w: string)
    requires IsSlug(w)
    ensures RemoveSpecial(" " + w + " ") == " " + w + " "
  {
    var padded := " " + w + " ";
    forall i | 0 <= i < |padded| ensures IsKeptChar(padded[i]) {
      if 0 < i < |padded| - 1 {
        assert padded[i] == w[i - 1];
      }
    }
    AllKept(padded);
  }

  lemma AllKept(s: string)
    requires forall i :: 0 <= i < |s| ==> IsKeptChar(s[i])
    ensures RemoveSpecial(s) == s
  {
    RemoveSpecialIsFilter(s);
    FilterKeepsAll(s, IsKeptChar);
  }

  lemma PaddedWordHyphenated(w: string)
    requires IsSlug(w) && w != []
    ensures ReplaceRuns(" " + w + " ", Whitespace) == "-" + w + "-"
  {
    SlugHasNoSpace(w);
    assert " " + w + " " == " " + (w + " ");
    assert (w + " ")[0] == w[0];
    ReplaceRunsRun(" ", w + " ", Whitespace);
    ReplaceRunsConcat(w, " ", Whitespace);
    ReplaceRunsUnchanged(w, Whitespace);
    assert " " == " " + "";
    ReplaceRunsRun(" ", "", Whitespace);
    assert "-" + (w + "-") == "-" + w + "-";
  }

  lemma EdgeHyphensStay(w: string)
    requires IsSlug(w) && w != [] && w[0] != '-' && w[|w| - 1] != '-'
    ensures IsSlug("-" + w + "-")
  {
    var s := "-" + w + "-";
    forall i | 0 <= i < |s| - 1 ensures !(s[i] == '-' && s[i + 1] == '-') {
      if i == 0 {
        assert s[1] == w[0];
      } else if i == |s| - 2 {
        assert s[i] == w[|w| - 1];
      } else {
        assert s[i] == w[i - 1] && s[i + 1] == w[i];
      }
    }
    forall i | 0 <= i < |s| ensures IsSlugChar(s[i]) {
      assert i == 0 || i == |s| - 1 || s[i] == w[i - 1];
    }
  }

  /**
   * Spaces at either end of a word become hyphens before `trim` runs, so they survive into the
   * slug: `generateSlug(' hi ')` is '-hi-'.
   */
  lemma SlugKeepsEdgeHyphens(w: string)
    requires IsSlug(w) && w != [] && w[0] != '-' && w[|w| - 1] != '-'
    ensures GenerateSlug(" " + w + " ") == "-" + w + "-"
  {
    PaddedWordLower(w);
    PaddedWordKept(w);
    PaddedWordHyphenated(w);
    EdgeHyphensStay(w);
    ReplaceRunsUnchanged("-" + w + "-", Hyphens);
    SlugIsTrimmed("-" + w + "-");
    TrimTrims("-" + w + "-");
  }
}
