/**
 * The post-processing of the student report's per-group note digest: the
 * digest is split on line feeds, every line that contains the quick-rating
 * marker is dropped, and the rest is joined back.
 */
module NoteDigest {
  import opened Wrappers

  /** The marker the quick-rating screen writes into its automatic notes
      ("quick rating" in Arabic). */
  const QuickRating: string :=
    "\U{062A}\U{0642}\U{064A}\U{064A}\U{0645} \U{0633}\U{0631}\U{064A}\U{0639}"

  predicate StartsWith(s: string, prefix: string) {
    |prefix| <= |s| && s[..|prefix|] == prefix
  }

  /** `s.includes(sub)` */
  predicate Contains(s: string, sub: string) {
    StartsWith(s, sub) || (s != [] && Contains(s[1..], sub))
  }

  predicate NoLineFeed(s: string) {
    '\n' !in s
  }

  /** `s.split('\n')`: always at least one piece, none holding a line feed. */
  function Split(s: string): (lines: seq<string>)
    ensures |lines| >= 1
    ensures forall i :: 0 <= i < |lines| ==> NoLineFeed(lines[i])
  {
    if s == [] then [[]]
    else
      var rest := Split(s[1..]);
      if s[0] == '\n' then [[]] + rest
      else [[s[0]] + rest[0]] + rest[1..]
  }

  /** `lines.join('\n')` */
  function Join(lines: seq<string>): string {
    if |lines| == 0 then []
    else if |lines| == 1 then lines[0]
    else lines[0] + "\n" + Join(lines[1..])
  }

  /** `lines.filter(note => !note.includes('تقييم سريع'))` */
  function KeepLines(lines: seq<string>): (kept: seq<string>)
    ensures |kept| <= |lines|
    ensures forall l :: l in kept <==> l in lines && !Contains(l, QuickRating)
  {
    if lines == [] then []
    else if Contains(lines[0], QuickRating) then KeepLines(lines[1..])
    else [lines[0]] + KeepLines(lines[1..])
  }

  /** The NOTES column after post-processing: a null or empty digest becomes
      '', otherwise the lines without the marker are kept, in order. */
  function Digest(notes: Option<string>): (r: string)
    ensures notes.None? || notes == Some("") ==> r == ""
    ensures notes.Some? && (forall l :: l in Split(notes.value) ==> !Contains(l, QuickRating)) ==> r == notes.value
  {
    if notes.None? || notes.value == "" then ""
    else
      UnmarkedLinesKept(Split(notes.value));
      JoinSplit(notes.value);
      Join(KeepLines(Split(notes.value)))
  }

  /** Lines none of which carries the marker pass the filter unchanged. */
  lemma UnmarkedLinesKept(lines: seq<string>)
    ensures (forall l :: l in lines ==> !Contains(l, QuickRating)) ==> KeepLines(lines) == lines
  {
    if forall l :: l in lines ==> !Contains(l, QuickRating) {
      KeepLinesOfKept(lines);
    }
  }

  /** Joining the pieces of a split gives the string back. */
  lemma {:induction false} JoinSplit(s: string)
    ensures Join(Split(s)) == s
  {
    if s != [] {
      var rest := Split(s[1..]);
      JoinSplit(s[1..]);
      if s[0] == '\n' {
        assert Split(s) == [[]] + rest;
        assert Split(s)[1..] == rest;
      } else {
        if |rest| == 1 {
          assert Split(s) == [[s[0]] + rest[0]];
        } else {
          var t := [[s[0]] + rest[0]] + rest[1..];
          assert t[1..] == rest[1..];
          assert Join(rest) == rest[0] + "\n" + Join(rest[1..]);
        }
      }
    }
  }

  /** Splitting a join of line-feed-free pieces gives the pieces back. */
  lemma {:induction false} SplitJoin(lines: seq<string>)
    requires |lines| >= 1
    requires forall i :: 0 <= i < |lines| ==> NoLineFeed(lines[i])
    ensures Split(Join(lines)) == lines
    decreases |lines|, |lines[0]|
  {
    if lines[0] == [] {
      if |lines| > 1 {
        SplitJoin(lines[1..]);
        assert Join(lines) == "\n" + Join(lines[1..]);
        assert Join(lines)[1..] == Join(lines[1..]);
      }
    } else {
      var head := lines[0];
      var shorter := [head[1..]] + lines[1..];
      assert head[0] in head;
      assert forall c :: c in head[1..] ==> c in head;
      assert forall i :: 1 <= i < |shorter| ==> shorter[i] == lines[i];
      SplitJoin(shorter);
      if |lines| == 1 {
        assert Join(lines)[1..] == Join(shorter);
      } else {
        assert shorter[1..] == lines[1..];
        assert Join(lines) == [head[0]] + Join(shorter);
        assert Join(lines)[1..] == Join(shorter);
      }
      assert [head[0]] + head[1..] == head;
    }
  }

  /** Filtering distributes over concatenation: the kept lines keep their order. */
  lemma {:induction false} KeepLinesAppend(a: seq<string>, b: seq<string>)
    ensures KeepLines(a + b) == KeepLines(a) + KeepLines(b)
  {
    if a != [] {
      assert (a + b)[0] == a[0];
      assert (a + b)[1..] == a[1..] + b;
      KeepLinesAppend(a[1..], b);
      if !Contains(a[0], QuickRating) {
        assert KeepLines(a + b) == [a[0]] + (KeepLines(a[1..]) + KeepLines(b));
      }
    } else {
      assert a + b == b;
    }
  }

  /** Lines that all pass the filter are kept as they are. */
  lemma {:induction false} KeepLinesOfKept(lines: seq<string>)
    requires forall l :: l in lines ==> !Contains(l, QuickRating)
    ensures KeepLines(lines) == lines
  {
    if lines != [] {
      assert lines[0] in lines;
      assert forall l :: l in lines[1..] ==> l in lines;
      KeepLinesOfKept(lines[1..]);
    }
  }

  /** What the digest keeps: nothing for a null or empty digest; otherwise the
      lines of the result are exactly the lines of the input that do not contain
      the marker, in their original order (or the result is '' when none is left). */
  lemma DigestKeepsUnmarkedLines(notes: Option<string>)
    ensures notes.None? || notes == Some("") ==> Digest(notes) == ""
    ensures notes.Some? && notes.value != "" ==>
      var kept := KeepLines(Split(notes.value));
      if kept == [] then Digest(notes) == "" else Split(Digest(notes)) == kept
    ensures forall l :: l in Split(Digest(notes)) ==> !Contains(l, QuickRating)
  {
    if notes.Some? && notes.value != "" {
      var lines := Split(notes.value);
      var kept := KeepLines(lines);
      assert forall i :: 0 <= i < |kept| ==> NoLineFeed(kept[i]) by {
        forall i | 0 <= i < |kept| ensures NoLineFeed(kept[i]) {
          assert kept[i] in lines;
        }
      }
      if kept != [] {
        SplitJoin(kept);
      } else {
        assert Split(Digest(notes)) == [[]];
        assert !Contains([], QuickRating);
      }
    } else {
      assert Split(Digest(notes)) == [[]];
      assert !Contains([], QuickRating);
    }
  }

  /** Post-processing an already processed digest changes nothing. */
  lemma DigestIdempotent(notes: Option<string>)
    ensures Digest(Some(Digest(notes))) == Digest(notes)
  {
    var d := Digest(notes);
    if d != "" {
      DigestKeepsUnmarkedLines(notes);
      var kept := KeepLines(Split(notes.value));
      assert Split(d) == kept;
      KeepLinesOfKept(kept);
    }
  }
}
