/** Extraction of a field's documentation text from the children of its doc comment. */
module DocComment {
  import opened Values

  /** `a` can be obtained from `b` by deleting characters. */
  ghost predicate IsSubseq(a: string, b: string)
    decreases |b|
  {
    if a == [] then true
    else if b == [] then false
    else (a[0] == b[0] && IsSubseq(a[1..], b[1..])) || IsSubseq(a, b[1..])
  }

  lemma {:induction false} SubseqOfSuffix(a: string, b: string, k: nat)
    requires k <= |b| && IsSubseq(a, b[k..])
    ensures IsSubseq(a, b)
    decreases k
  {
    if k > 0 {
      assert b[k - 1..][1..] == b[k..];
      assert IsSubseq(a, b[k - 1..]);
      SubseqOfSuffix(a, b, k - 1);
    }
  }

  // ---------------------------------------------------------------------------------------
  // The filter as written: the pattern is one character class, so it deletes each of the
  // characters / * space newline @ # ( ) s e | wherever they occur.

  const AsWrittenClass: set<char> := {'/', '*', ' ', '\n', '@', '#', '(', ')', 's', 'e', '|'}

  /** Deletes every character of the class and keeps every other one, in order. */
  function StripAsWritten(s: string): (r: string)
    ensures forall i :: 0 <= i < |r| ==> r[i] !in AsWrittenClass
    ensures IsSubseq(r, s)
    decreases |s|
  {
    if s == [] then []
    else if s[0] in AsWrittenClass then
      var r := StripAsWritten(s[1..]);
      SubseqOfSuffix(r, s, 1);
      r
    else
      var rest := StripAsWritten(s[1..]);
      var r := [s[0]] + rest;
      assert r[1..] == rest;
      r
  }

  /** Every character outside the class is kept, as often as it occurs; with the subsequence
      property this determines the result. */
  lemma {:induction false} StripAsWrittenKeeps(s: string, c: char)
    requires c !in AsWrittenClass
    ensures multiset(StripAsWritten(s))[c] == multiset(s)[c]
    decreases |s|
  {
    if s != [] {
      assert s == [s[0]] + s[1..];
      StripAsWrittenKeeps(s[1..], c);
      if s[0] !in AsWrittenClass {
        assert StripAsWritten(s) == [s[0]] + StripAsWritten(s[1..]);
      }
    }
  }

  /** The filter works piece by piece: filtering a concatenation concatenates the filtered parts. */
  lemma {:induction false} StripAsWrittenConcat(a: string, b: string)
    ensures StripAsWritten(a + b) == StripAsWritten(a) + StripAsWritten(b)
    decreases |a|
  {
    if a == [] {
      assert a + b == b;
    } else {
      assert (a + b)[0] == a[0] && (a + b)[1..] == a[1..] + b;
      StripAsWrittenConcat(a[1..], b);
      if a[0] !in AsWrittenClass {
        assert StripAsWritten(a + b) == [a[0]] + (StripAsWritten(a[1..]) + StripAsWritten(b));
      }
    }
  }

  /** Applying the as-written filter twice changes nothing. */
  lemma StripAsWrittenIdempotent(s: string)
    ensures StripAsWritten(StripAsWritten(s)) == StripAsWritten(s)
  {
  }

  /** The as-written filter deletes letters of ordinary words: "size" loses its 's' and its 'e'. */
  lemma StripAsWrittenDropsLetters()
    ensures StripAsWritten("size") == "iz"
  {
  }

  // ---------------------------------------------------------------------------------------
  // The evidently intended filter: delete the comment markers / * space newline @ # | and the
  // tag "@see", and keep every other character.

  const MarkerChars: set<char> := {'/', '*', ' ', '\n', '@', '#', '|'}
  const SeeTag := "@see"

  /** Deletes every "@see" tag and every marker character, and keeps every other character in
      order; in text without '@' exactly the marker characters go. */
  function Clean(s: string): (r: string)
    ensures forall i :: 0 <= i < |r| ==> r[i] !in MarkerChars
    ensures IsSubseq(r, s)
    decreases |s|
  {
    if s == [] then []
    else if SeeTag <= s then
      var r := Clean(s[|SeeTag|..]);
      SubseqOfSuffix(r, s, |SeeTag|);
      r
    else if s[0] in MarkerChars then
      var r := Clean(s[1..]);
      SubseqOfSuffix(r, s, 1);
      r
    else
      var rest := Clean(s[1..]);
      var r := [s[0]] + rest;
      assert r[1..] == rest;
      r
  }

  /** Every character that is neither a marker nor a letter of "@see" is kept, as often as it
      occurs. */
  lemma {:induction false} CleanKeeps(s: string, c: char)
    requires c !in MarkerChars && c !in SeeTag
    ensures multiset(Clean(s))[c] == multiset(s)[c]
    decreases |s|
  {
    if s != [] {
      if SeeTag <= s {
        assert s == SeeTag + s[|SeeTag|..];
        CleanKeeps(s[|SeeTag|..], c);
      } else {
        assert s == [s[0]] + s[1..];
        CleanKeeps(s[1..], c);
        if s[0] !in MarkerChars {
          assert Clean(s) == [s[0]] + Clean(s[1..]);
        }
      }
    }
  }

  /** In text without '@' every non-marker character is kept, as often as it occurs; with the
      subsequence property this determines the result. */
  lemma {:induction false} CleanKeepsAllWithoutTag(s: string, c: char)
    requires '@' !in s && c !in MarkerChars
    ensures multiset(Clean(s))[c] == multiset(s)[c]
    decreases |s|
  {
    if s != [] {
      assert s[0] != '@';
      assert s == [s[0]] + s[1..];
      CleanKeepsAllWithoutTag(s[1..], c);
      if s[0] !in MarkerChars {
        assert Clean(s) == [s[0]] + Clean(s[1..]);
      }
    }
  }

  /** The intended filter works piece by piece when the first piece holds no '@', so that no
      "@see" tag can straddle the two. */
  lemma {:induction false} CleanConcat(a: string, b: string)
    requires '@' !in a
    ensures Clean(a + b) == Clean(a) + Clean(b)
    decreases |a|
  {
    if a == [] {
      assert a + b == b;
    } else {
      assert (a + b)[0] == a[0] && (a + b)[1..] == a[1..] + b;
      assert !(SeeTag <= a + b) && !(SeeTag <= a);
      CleanConcat(a[1..], b);
      if a[0] !in MarkerChars {
        assert Clean(a + b) == [a[0]] + (Clean(a[1..]) + Clean(b));
      }
    }
  }

  /** An "@see" tag is deleted as a whole, and the text after it is filtered on its own. */
  lemma CleanAfterTag(b: string)
    ensures Clean(SeeTag + b) == Clean(b)
  {
    assert (SeeTag + b)[|SeeTag|..] == b;
  }

  /** An '@' that does not start an "@see" tag is deleted alone, and the text after it is filtered
      on its own. */
  lemma CleanLoneAt(b: string)
    requires !(SeeTag <= "@" + b)
    ensures Clean("@" + b) == Clean(b)
  {
    assert ("@" + b)[1..] == b;
  }

  /** Text without marker characters passes through unchanged; in particular every letter is kept. */
  lemma {:induction false} CleanKeepsText(s: string)
    requires forall i :: 0 <= i < |s| ==> s[i] !in MarkerChars
    ensures Clean(s) == s
    decreases |s|
  {
    if s != [] {
      assert s[0] != '@';
      CleanKeepsText(s[1..]);
    }
  }

  /** Applying the intended filter twice changes nothing. */
  lemma CleanIdempotent(s: string)
    ensures Clean(Clean(s)) == Clean(s)
  {
    CleanKeepsText(Clean(s));
  }

  /** The intended filter keeps the word that the as-written filter damages. */
  lemma CleanKeepsSize()
    ensures Clean("size") == "size"
  {
    CleanKeepsText("size");
  }

  /** Text made only of marker characters other than '@' is deleted entirely. */
  lemma {:induction false} CleanDropsMarkers(s: string)
    requires forall i :: 0 <= i < |s| ==> s[i] in MarkerChars && s[i] != '@'
    ensures Clean(s) == []
    decreases |s|
  {
    if s != [] {
      CleanDropsMarkers(s[1..]);
    }
  }

  /** On a doc-comment line the intended filter drops the leading "* " and keeps the words. */
  lemma CleanDocLine(word: string)
    requires forall i :: 0 <= i < |word| ==> word[i] !in MarkerChars
    ensures Clean("* " + word) == word
  {
    var lead := "* ";
    CleanConcat(lead, word);
    CleanDropsMarkers(lead);
    CleanKeepsText(word);
  }

  // ---------------------------------------------------------------------------------------
  // The comment of a field: the filtered texts of the doc comment's children, concatenated.

  /** The comment as the source computes it: each child filtered by the class as written. */
  function CommentAsWritten(children: seq<string>): string
  {
    if children == [] then ""
    else CommentAsWritten(children[..|children| - 1]) + StripAsWritten(children[|children| - 1])
  }

  /** The comment as intended: each child filtered by `Clean`. */
  function Comment(children: seq<string>): string
  {
    if children == [] then ""
    else Comment(children[..|children| - 1]) + Clean(children[|children| - 1])
  }

  /** Appends the filtered text of every child of a doc comment, in order, with the filter as
      written. */
  method GetComment(children: seq<string>) returns (r: string)
    ensures r == CommentAsWritten(children)
    ensures forall i :: 0 <= i < |r| ==> r[i] !in AsWrittenClass
  {
    r := "";
    for i := 0 to |children|
      invariant r == CommentAsWritten(children[..i])
      invariant forall j :: 0 <= j < |r| ==> r[j] !in AsWrittenClass
    {
      assert children[..i + 1][..i] == children[..i];
      var piece := StripAsWritten(children[i]);
      r := r + piece;
    }
    assert children[..|children|] == children;
  }

  /** The source's comment is the as-written filter applied to the children's joined text. */
  lemma {:induction false} CommentAsWrittenJoined(children: seq<string>)
    ensures CommentAsWritten(children) == StripAsWritten(Joined(children))
    decreases |children|
  {
    if children != [] {
      var front := children[..|children| - 1];
      CommentAsWrittenJoined(front);
      StripAsWrittenConcat(Joined(front), children[|children| - 1]);
    }
  }

  /** The children's texts, joined in order. */
  function Joined(children: seq<string>): string
  {
    if children == [] then ""
    else Joined(children[..|children| - 1]) + children[|children| - 1]
  }

  /** The comment never contains a marker character, so the tag it goes into stays well delimited. */
  lemma {:induction false} CommentFreeOfMarkers(children: seq<string>)
    ensures forall i :: 0 <= i < |Comment(children)| ==> Comment(children)[i] !in MarkerChars
    decreases |children|
  {
    if children != [] {
      var front := children[..|children| - 1];
      CommentFreeOfMarkers(front);
      var a, b := Comment(front), Clean(children[|children| - 1]);
      assert forall i :: 0 <= i < |a + b| ==> (a + b)[i] == if i < |a| then a[i] else b[i - |a|];
    }
  }

  /** A comment whose children hold no '@' is the intended filter applied to their joined text. */
  lemma {:induction false} CommentJoined(children: seq<string>)
    requires forall i :: 0 <= i < |children| ==> '@' !in children[i]
    ensures Comment(children) == Clean(Joined(children))
    decreases |children|
  {
    if children != [] {
      var front := children[..|children| - 1];
      CommentJoined(front);
      JoinedHasNoAt(front);
      CleanConcat(Joined(front), children[|children| - 1]);
    }
  }

  lemma {:induction false} JoinedHasNoAt(children: seq<string>)
    requires forall i :: 0 <= i < |children| ==> '@' !in children[i]
    ensures '@' !in Joined(children)
    decreases |children|
  {
    if children != [] {
      JoinedHasNoAt(children[..|children| - 1]);
    }
  }

  /** The description of a field: the comment of its doc comment, or "" when it has none. */
  function FieldDesc(field: Field): (r: string)
    ensures forall i :: 0 <= i < |r| ==> r[i] !in MarkerChars
    ensures field.doc.None? ==> r == ""
  {
    match field.doc
    case None => ""
    case Some(children) =>
      CommentFreeOfMarkers(children);
      Comment(children)
  }
}
