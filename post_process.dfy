/** The text rewriting applied to the printed JSON: it turns each tagged placeholder string
    into a bare sample value followed by a line comment holding the type and the description. */
module PostProcess {

  /** Replaces every occurrence of the literal `pat` in `s` by `rep`, scanning left to right and
      resuming after each replaced occurrence. */
  function ReplaceAll(s: string, pat: string, rep: string): string
    requires pat != []
    decreases |s|
  {
    if s == [] then []
    else if pat <= s then rep + ReplaceAll(s[|pat|..], pat, rep)
    else [s[0]] + ReplaceAll(s[1..], pat, rep)
  }

  /** The comment opener that replaces the tag's '@'. */
  const Opener := "\", //"

  /** The first three rewrites: the tag's '@' opens a comment after a closing quote, and the
      tag's closing '#' is deleted with the quote (and comma) after it. */
  function OpenComments(s: string): string
  {
    ReplaceAll(ReplaceAll(ReplaceAll(s, "@", Opener), "#\",", ""), "#\"", "")
  }

  /** The last two rewrites: the '|' placeholder delimiters are deleted with the quote beside them. */
  function Unquote(s: string): string
  {
    ReplaceAll(ReplaceAll(s, "\"|", ""), "|\"", "")
  }

  /** The five rewrites applied in order to the printed JSON. */
  function Rewrite(json: string): string
  {
    Unquote(OpenComments(json))
  }

  // ---------------------------------------------------------------------------------------
  // ReplaceAll against its own laws.

  /** Text without the pattern's first character is left unchanged. */
  lemma {:induction false} ReplaceAllAbsent(s: string, pat: string, rep: string)
    requires pat != [] && pat[0] !in s
    ensures ReplaceAll(s, pat, rep) == s
    decreases |s|
  {
    if s != [] {
      assert s[0] != pat[0];
      ReplaceAllAbsent(s[1..], pat, rep);
    }
  }

  /** An occurrence at the front is replaced, and the scan resumes after it. */
  lemma ReplaceAllAtFront(pat: string, b: string, rep: string)
    requires pat != []
    ensures ReplaceAll(pat + b, pat, rep) == rep + ReplaceAll(b, pat, rep)
  {
    assert (pat + b)[|pat|..] == b;
  }

  /** A front part at none of whose positions the pattern starts is copied through unchanged. */
  lemma {:induction false} ReplaceAllSkip(a: string, b: string, pat: string, rep: string)
    requires pat != []
    requires forall i :: 0 <= i < |a| ==> !(pat <= (a + b)[i..])
    ensures ReplaceAll(a + b, pat, rep) == a + ReplaceAll(b, pat, rep)
    decreases |a|
  {
    if a != [] {
      assert !(pat <= (a + b)[0..]);
      assert (a + b)[0..] == a + b;
      assert (a + b)[1..] == a[1..] + b;
      forall i | 0 <= i < |a[1..]| ensures !(pat <= (a[1..] + b)[i..]) {
        assert (a[1..] + b)[i..] == (a + b)[i + 1..];
      }
      ReplaceAllSkip(a[1..], b, pat, rep);
    }
  }

  /** The front part cannot hold the start of an occurrence when it lacks the pattern's first
      character. */
  lemma ReplaceAllSkipFree(a: string, b: string, pat: string, rep: string)
    requires pat != [] && pat[0] !in a
    ensures ReplaceAll(a + b, pat, rep) == a + ReplaceAll(b, pat, rep)
  {
    forall i | 0 <= i < |a| ensures !(pat <= (a + b)[i..]) {
      assert (a + b)[i..][0] == a[i];
    }
    ReplaceAllSkip(a, b, pat, rep);
  }

  /** A two-character pattern whose second character occurs nowhere cannot match. */
  lemma ReplaceAllSecondAbsent(s: string, pat: string, rep: string)
    requires |pat| == 2 && pat[1] !in s
    ensures ReplaceAll(s, pat, rep) == s
  {
    forall i | 0 <= i < |s| ensures !(pat <= (s + [])[i..]) {
      assert s + [] == s;
      if i + 1 < |s| {
        assert s[i..][1] == s[i + 1];
      }
    }
    ReplaceAllSkip(s, [], pat, rep);
    assert s + [] == s;
  }

  /** Replacing a single character by text without it leaves no occurrence of the character. */
  lemma {:induction false} ReplaceAllRemovesChar(s: string, c: char, rep: string)
    requires c !in rep
    ensures c !in ReplaceAll(s, [c], rep)
    decreases |s|
  {
    if s != [] {
      ReplaceAllRemovesChar(s[1..], c, rep);
    }
  }

  /** A character in neither the text nor the replacement is not in the result. */
  lemma {:induction false} ReplaceAllKeepsAbsent(s: string, pat: string, rep: string, c: char)
    requires pat != [] && c !in s && c !in rep
    ensures c !in ReplaceAll(s, pat, rep)
    decreases |s|
  {
    if s != [] {
      if pat <= s {
        ReplaceAllKeepsAbsent(s[|pat|..], pat, rep, c);
      } else {
        ReplaceAllKeepsAbsent(s[1..], pat, rep, c);
      }
    }
  }

  /** A text splits into two independently rewritten parts where the second part starts with a
      character the pattern does not contain: no occurrence can straddle the split. */
  lemma {:induction false} ReplaceAllSplit(a: string, b: string, pat: string, rep: string)
    requires pat != [] && b != [] && b[0] !in pat
    ensures ReplaceAll(a + b, pat, rep) == ReplaceAll(a, pat, rep) + ReplaceAll(b, pat, rep)
    decreases |a|
  {
    if a == [] {
      assert a + b == b;
    } else if pat <= a + b {
      assert (a + b)[|a|] == b[0];
      assert |pat| <= |a|;
      assert pat <= a;
      assert (a + b)[|pat|..] == a[|pat|..] + b;
      ReplaceAllSplit(a[|pat|..], b, pat, rep);
    } else {
      assert (a + b)[1..] == a[1..] + b;
      ReplaceAllSplit(a[1..], b, pat, rep);
    }
  }

  /** A text that starts with a character outside the pattern still starts with it afterwards. */
  lemma ReplaceAllKeepsHead(b: string, pat: string, rep: string)
    requires pat != [] && b != [] && b[0] !in pat
    ensures ReplaceAll(b, pat, rep) != [] && ReplaceAll(b, pat, rep)[0] == b[0]
  {
    assert !(pat <= b);
  }

  /** A character that occurs in none of the five patterns, such as the newline the printer puts
      between entries. */
  predicate Boundary(c: char)
  {
    c !in "@#\",|"
  }

  /** The rewrite of a document is the rewrite of its parts when the second part starts at a
      boundary character. */
  lemma RewriteSplit(a: string, b: string)
    requires b != [] && Boundary(b[0])
    ensures Rewrite(a + b) == Rewrite(a) + Rewrite(b)
  {
    var p1, p2, p3, p4, p5 := "@", "#\",", "#\"", "\"|", "|\"";
    ReplaceAllSplit(a, b, p1, Opener);
    var a1, b1 := ReplaceAll(a, p1, Opener), ReplaceAll(b, p1, Opener);
    ReplaceAllKeepsHead(b, p1, Opener);
    ReplaceAllSplit(a1, b1, p2, "");
    var a2, b2 := ReplaceAll(a1, p2, ""), ReplaceAll(b1, p2, "");
    ReplaceAllKeepsHead(b1, p2, "");
    ReplaceAllSplit(a2, b2, p3, "");
    var a3, b3 := ReplaceAll(a2, p3, ""), ReplaceAll(b2, p3, "");
    ReplaceAllKeepsHead(b2, p3, "");
    ReplaceAllSplit(a3, b3, p4, "");
    var a4, b4 := ReplaceAll(a3, p4, ""), ReplaceAll(b3, p4, "");
    ReplaceAllKeepsHead(b3, p4, "");
    ReplaceAllSplit(a4, b4, p5, "");
  }

  /** No '@' is left after the rewrite: the first pass replaces every one, and the other passes
      only delete. */
  lemma RewriteLeavesNoAt(json: string)
    ensures '@' !in Rewrite(json)
  {
    var s1 := ReplaceAll(json, "@", Opener);
    ReplaceAllRemovesChar(json, '@', Opener);
    var s2 := ReplaceAll(s1, "#\",", "");
    ReplaceAllKeepsAbsent(s1, "#\",", "", '@');
    var s3 := ReplaceAll(s2, "#\"", "");
    ReplaceAllKeepsAbsent(s2, "#\"", "", '@');
    var s4 := ReplaceAll(s3, "\"|", "");
    ReplaceAllKeepsAbsent(s3, "\"|", "", '@');
    ReplaceAllKeepsAbsent(s4, "|\"", "", '@');
  }

  // ---------------------------------------------------------------------------------------
  // The rewrite of one printed entry.

  /** Text that holds none of the characters the rewrite looks for. */
  predicate Plain(s: string)
  {
    '@' !in s && '#' !in s && '|' !in s && '"' !in s
  }

  /** A printed description: free of the tag characters (it may hold an escaped quote). */
  predicate PlainDesc(s: string)
  {
    '@' !in s && '#' !in s && '|' !in s
  }

  /** What a placeholder value has become after the first passes: the value, the closing
      delimiter, the comment opener and the comment. */
  const Closed := "|\", //"

  /** Pass 4 on such text: the leading `"|` goes; elsewhere a quote is never followed by '|'. */
  lemma OpeningDelimiterGoes(v: string, comment: string)
    requires Plain(v) && PlainDesc(comment)
    ensures ReplaceAll("\"|" + v + Closed + comment, "\"|", "") == v + Closed + comment
  {
    var rest := v + Closed + comment;
    Regroup("\"|", v, Closed, comment);
    Assoc(v, Closed, comment);
    ReplaceAllAtFront("\"|", rest, "");
    ReplaceAllSkipFree(v, Closed + comment, "\"|", "");
    ClosedSkipped(comment);
    ReplaceAllSecondAbsent(comment, "\"|", "");
  }

  lemma ClosedSkipped(comment: string)
    ensures ReplaceAll(Closed + comment, "\"|", "") == Closed + ReplaceAll(comment, "\"|", "")
  {
    forall i | 0 <= i < |Closed| ensures !("\"|" <= (Closed + comment)[i..]) {
      assert (Closed + comment)[i..][0] == Closed[i];
      if i == 1 {
        assert (Closed + comment)[i..][1] == Closed[2];
      }
    }
    ReplaceAllSkip(Closed, comment, "\"|", "");
  }

  /** Pass 5 on such text: the `|"` after the value goes, leaving the value and the comment. */
  lemma ClosingDelimiterGoes(v: string, comment: string)
    requires Plain(v) && PlainDesc(comment)
    ensures ReplaceAll(v + Closed + comment, "|\"", "") == v + ", //" + comment
  {
    var c, o := "|\"", ", //";
    assert Closed == c + o;
    Assoc(v, c + o, comment);
    Assoc(c, o, comment);
    ReplaceAllSkipFree(v, c + (o + comment), c, "");
    ReplaceAllAtFront(c, o + comment, "");
    ReplaceAllAbsent(o + comment, c, "");
    assert [] + (o + comment) == o + comment;
    Assoc(v, o, comment);
  }

  /** The end of a tag inside a printed string: the '#' and the closing quote. */
  const TagEnd := "#\""

  /** The separator after a printed entry: a comma, except after the last entry of a mapping. */
  function Sep(last: bool): string
  {
    if last then "" else ","
  }

  /** What may follow an entry: no tag characters, and no comma right after the last entry. */
  predicate Follows(rest: string, last: bool)
  {
    PlainDesc(rest) && (last ==> rest == [] || rest[0] != ',')
  }

  lemma Assoc(a: string, b: string, c: string)
    ensures a + b + c == a + (b + c)
  {
  }

  lemma Regroup(a: string, b: string, c: string, d: string)
    ensures a + b + c + d == a + (b + (c + d))
    ensures a + b + c == a + (b + c)
  {
  }

  /** A single occurrence, with the pattern's first character nowhere else, is replaced. */
  lemma ReplaceOne(a: string, pat: string, b: string, c: string, rep: string)
    requires pat != [] && pat[0] !in a && pat[0] !in b && pat[0] !in c
    ensures ReplaceAll(a + pat + b + c, pat, rep) == a + rep + b + c
  {
    Regroup(a, pat, b, c);
    ReplaceAllSkipFree(a, pat + (b + c), pat, rep);
    ReplaceAllAtFront(pat, b + c, rep);
    ReplaceAllAbsent(b + c, pat, rep);
    Regroup(a, rep, b, c);
  }

  /** Pass 1 on a printed entry: the tag's '@' becomes the comment opener. */
  lemma AtOpensComment(v: string, comment: string, tail: string)
    requires '@' !in v && '@' !in comment && '@' !in tail
    ensures ReplaceAll("\"" + v + "@" + comment + tail, "@", Opener) == "\"" + v + Opener + comment + tail
  {
    ReplaceOne("\"" + v, "@", comment, tail, Opener);
  }

  /** Pass 2 leaves the tag end of a last entry: no comma follows it. */
  lemma TagEndKept(rest: string)
    requires '#' !in rest && (rest == [] || rest[0] != ',')
    ensures ReplaceAll(TagEnd + rest, "#\",", "") == TagEnd + rest
  {
    forall i | 0 <= i < |TagEnd| ensures !("#\"," <= (TagEnd + rest)[i..]) {
      assert (TagEnd + rest)[i..][0] == TagEnd[i];
      if i == 0 && rest != [] {
        assert (TagEnd + rest)[i..][2] == rest[0];
      }
    }
    ReplaceAllSkip(TagEnd, rest, "#\",", "");
    ReplaceAllAbsent(rest, "#\",", "");
  }

  /** A pattern written as two parts, occurring once, is replaced. */
  lemma ReplaceOneSplit(a: string, p: string, q: string, c: string, rep: string)
    requires p != [] && p[0] !in a && p[0] !in c
    ensures ReplaceAll(a + p + q + c, p + q, rep) == a + rep + c
  {
    Regroup(a, p, q, c);
    assert p + (q + c) == (p + q) + c;
    assert (p + q)[0] == p[0];
    ReplaceAllSkipFree(a, (p + q) + c, p + q, rep);
    ReplaceAllAtFront(p + q, c, rep);
    ReplaceAllAbsent(c, p + q, rep);
  }

  /** Passes 2 and 3 on an entry followed by a comma: the '#' goes with the quote and the comma. */
  lemma HashGoesWithComma(x: string, rest: string)
    requires '#' !in x && '#' !in rest
    ensures ReplaceAll(ReplaceAll(x + TagEnd + Sep(false) + rest, "#\",", ""), "#\"", "") == x + rest
  {
    assert TagEnd + Sep(false) == "#\",";
    ReplaceOneSplit(x, TagEnd, Sep(false), rest, "");
    assert x + "" + rest == x + rest;
    ReplaceAllAbsent(x + rest, "#\"", "");
  }

  /** Passes 2 and 3 on the last entry: the '#' goes with the quote. */
  lemma HashGoesLast(x: string, rest: string)
    requires '#' !in x && '#' !in rest && (rest == [] || rest[0] != ',')
    ensures ReplaceAll(ReplaceAll(x + TagEnd + Sep(true) + rest, "#\",", ""), "#\"", "") == x + rest
  {
    var e: string := [];
    assert Sep(true) == e && e + rest == rest;
    Regroup(x, TagEnd, e, rest);
    ReplaceAllSkipFree(x, TagEnd + rest, "#\",", "");
    TagEndKept(rest);
    ReplaceAllSkipFree(x, TagEnd + rest, "#\"", "");
    ReplaceAllAtFront(TagEnd, rest, "");
    ReplaceAllAbsent(rest, "#\"", "");
  }

  // ---------------------------------------------------------------------------------------
  // Whole entries.

  /** A string value as printed: in quotes, then the separator and what follows. */
  function Printed(text: string, last: bool, rest: string): string
  {
    "\"" + text + "\"" + Sep(last) + rest
  }

  /** The tag text the resolver appends to a sample value. */
  function TagText(typeName: string, desc: string): string
  {
    "@" + typeName + ":" + desc + "#"
  }

  /** A printed tagged value, split at the tag's '@' and at its end. */
  lemma PrintedTagged(v: string, typeName: string, desc: string, last: bool, rest: string)
    ensures Printed(v + TagText(typeName, desc), last, rest)
         == "\"" + v + "@" + (typeName + ":" + desc) + (TagEnd + (Sep(last) + rest))
  {
    var q, at, comment, sr := "\"", "@", typeName + ":" + desc, Sep(last) + rest;
    assert TagText(typeName, desc) == at + comment + "#" by {
      assert "@" + typeName + ":" + desc == at + comment;
    }
    assert TagEnd == "#" + q;
    assert Printed(v + TagText(typeName, desc), last, rest)
        == q + (v + (at + comment + "#")) + q + Sep(last) + rest;
  }

  /** The first three rewrites on a printed tagged value: the tag becomes a comment after the
      closing quote of the value, and the separator goes. */
  lemma CommentOpened(v: string, comment: string, last: bool, rest: string)
    requires '@' !in v && '#' !in v && '@' !in comment && '#' !in comment && Follows(rest, last)
    ensures OpenComments("\"" + v + "@" + comment + (TagEnd + (Sep(last) + rest)))
         == "\"" + v + Opener + comment + rest
  {
    var tail := TagEnd + (Sep(last) + rest);
    assert '@' !in TagEnd && '@' !in Sep(last);
    AtOpensComment(v, comment, tail);
    var x := "\"" + v + Opener + comment;
    Regroup(x, TagEnd, Sep(last), rest);
    assert '#' !in Opener;
    if last {
      HashGoesLast(x, rest);
    } else {
      HashGoesWithComma(x, rest);
    }
  }

  /** A '|'-delimited placeholder value loses its quotes and delimiters: what is left is the bare
      value, a comma, and a line comment with the type name and the description. */
  lemma PlaceholderEntry(w: string, typeName: string, desc: string, last: bool, rest: string)
    requires Plain(w) && PlainDesc(typeName) && PlainDesc(desc) && Follows(rest, last)
    ensures Rewrite(Printed("|" + w + "|" + TagText(typeName, desc), last, rest))
         == w + ", //" + typeName + ":" + desc + rest
  {
    var q, b, v, comment := "\"", "|", "|" + w + "|", typeName + ":" + desc;
    PrintedTagged(v, typeName, desc, last, rest);
    CommentOpened(v, comment, last, rest);
    RegroupDelimited(q, b, w, Opener, comment, rest);
    assert q + b == "\"|" && b + Opener == Closed;
    OpeningDelimiterGoes(w, comment + rest);
    ClosingDelimiterGoes(w, comment + rest);
    RegroupComment(w, ", //", typeName, ":", desc, rest);
  }

  lemma RegroupDelimited(q: string, b: string, w: string, o: string, c: string, r: string)
    ensures q + (b + w + b) + o + c + r == (q + b) + w + (b + o) + (c + r)
  {
  }

  lemma RegroupComment(w: string, o: string, t: string, colon: string, d: string, r: string)
    ensures w + o + ((t + colon + d) + r) == w + o + t + colon + d + r
  {
  }

  /** Any other tagged value keeps its quotes and is followed by a comma and a line comment
      with the type name and the description. */
  lemma QuotedEntry(v: string, typeName: string, desc: string, last: bool, rest: string)
    requires Plain(v) && PlainDesc(typeName) && PlainDesc(desc) && Follows(rest, last)
    ensures Rewrite(Printed(v + TagText(typeName, desc), last, rest))
         == "\"" + v + Opener + typeName + ":" + desc + rest
  {
    var comment := typeName + ":" + desc;
    PrintedTagged(v, typeName, desc, last, rest);
    CommentOpened(v, comment, last, rest);
    var out := "\"" + v + Opener + comment + rest;
    assert '|' !in out;
    ReplaceAllSecondAbsent(out, "\"|", "");
    ReplaceAllAbsent(out, "|\"", "");
  }

  /** An entry followed by more of the document, from a boundary character on (the printer's line
      break), is rewritten as the entry alone followed by the rewritten remainder. */
  lemma EntryThenMore(text: string, last: bool, more: string)
    requires more != [] && Boundary(more[0])
    ensures Rewrite(Printed(text, last, more)) == Rewrite(Printed(text, last, "")) + Rewrite(more)
  {
    assert Printed(text, last, more) == Printed(text, last, "") + more;
    RewriteSplit(Printed(text, last, ""), more);
  }

  /** Text without tag characters — keys, braces, untagged strings — is left unchanged. */
  lemma RewriteKeepsPlain(s: string)
    requires PlainDesc(s)
    ensures Rewrite(s) == s
  {
    ReplaceAllAbsent(s, "@", Opener);
    ReplaceAllAbsent(s, "#\",", "");
    ReplaceAllAbsent(s, "#\"", "");
    ReplaceAllSecondAbsent(s, "\"|", "");
    ReplaceAllAbsent(s, "|\"", "");
  }
}
