/** `_get_file_destination` of backend_api/models.py: the storage path of an
    uploaded receipt image keeps only the extension of the uploaded name and
    replaces the rest with a fresh identifier. The identifier (`uuid.uuid4()`
    in the source) is a parameter here. */
module Storage {

  /** Python's `s.split(c)` for a one-character separator: the pieces between
      the separators, always at least one (`"".split(".") == [""]`). */
  function SplitOn(s: string, c: char): (parts: seq<string>)
    ensures |parts| >= 1
    ensures forall i :: 0 <= i < |parts| ==> c !in parts[i]
  {
    if |s| == 0 then [""]
    else if s[0] == c then [""] + SplitOn(s[1..], c)
    else
      var rest := SplitOn(s[1..], c);
      [[s[0]] + rest[0]] + rest[1..]
  }

  /** `c.join(parts)`, the inverse of `SplitOn`. */
  function Join(parts: seq<string>, c: char): (s: string)
    requires |parts| >= 1
    ensures |s| >= |parts| - 1
  {
    if |parts| == 1 then parts[0] else parts[0] + [c] + Join(parts[1..], c)
  }

  /** Joining the pieces gives back the split text. */
  lemma {:induction false} JoinSplit(s: string, c: char)
    ensures Join(SplitOn(s, c), c) == s
    decreases |s|
  {
    if |s| > 0 {
      var rest := SplitOn(s[1..], c);
      JoinSplit(s[1..], c);
      if s[0] == c {
        assert ([""] + rest)[1..] == rest;
      } else if |rest| > 1 {
        var parts := [[s[0]] + rest[0]] + rest[1..];
        assert parts[1..] == rest[1..];
        assert Join(rest, c) == rest[0] + [c] + Join(rest[1..], c);
      }
    }
  }

  /** Text without the separator is a single piece. */
  lemma {:induction false} SplitNoSeparator(s: string, c: char)
    requires c !in s
    ensures SplitOn(s, c) == [s]
    decreases |s|
  {
    if |s| > 0 {
      SplitNoSeparator(s[1..], c);
      assert [s[0]] + s[1..] == s;
    }
  }

  /** Splitting at one separator concatenates the pieces of both sides. */
  lemma {:induction false} SplitAround(x: string, c: char, y: string)
    ensures SplitOn(x + [c] + y, c) == SplitOn(x, c) + SplitOn(y, c)
    decreases |x|
  {
    var s := x + [c] + y;
    if |x| == 0 {
      assert s == [c] + y && s[1..] == y;
    } else {
      assert s[0] == x[0] && s[1..] == x[1..] + [c] + y;
      SplitAround(x[1..], c, y);
      var rx, ry := SplitOn(x[1..], c), SplitOn(y, c);
      if x[0] == c {
        SplitHeadSeparator(s, c);
        SplitHeadSeparator(x, c);
        ConsAppend("", rx, ry);
      } else {
        SplitHeadOther(s, c);
        SplitHeadOther(x, c);
        MergeAppend(x[0], rx, ry);
      }
    }
  }

  lemma SplitHeadSeparator(s: string, c: char)
    requires |s| > 0 && s[0] == c
    ensures SplitOn(s, c) == [""] + SplitOn(s[1..], c)
  {
  }

  lemma SplitHeadOther(s: string, c: char)
    requires |s| > 0 && s[0] != c
    ensures SplitOn(s, c) == [[s[0]] + SplitOn(s[1..], c)[0]] + SplitOn(s[1..], c)[1..]
  {
  }

  lemma ConsAppend(h: string, a: seq<string>, b: seq<string>)
    ensures [h] + (a + b) == ([h] + a) + b
  {
  }

  lemma MergeAppend(h: char, a: seq<string>, b: seq<string>)
    requires |a| > 0
    ensures [[h] + (a + b)[0]] + (a + b)[1..] == ([[h] + a[0]] + a[1..]) + b
  {
    assert (a + b)[0] == a[0];
    assert (a + b)[1..] == a[1..] + b;
  }

  /** Splitting a join of separator-free pieces gives the pieces back. */
  lemma {:induction false} SplitJoin(parts: seq<string>, c: char)
    requires |parts| >= 1
    requires forall i :: 0 <= i < |parts| ==> c !in parts[i]
    ensures SplitOn(Join(parts, c), c) == parts
    decreases |parts|
  {
    SplitNoSeparator(parts[0], c);
    if |parts| > 1 {
      SplitJoin(parts[1..], c);
      SplitAround(parts[0], c, Join(parts[1..], c));
      assert [parts[0]] + parts[1..] == parts;
    }
  }

  function Last(parts: seq<string>): string
    requires |parts| >= 1
  {
    parts[|parts| - 1]
  }

  /** `filename.split(".")[-1]`. */
  function Extension(filename: string): (ext: string)
    ensures '.' !in ext
    ensures |ext| <= |filename|
  {
    var parts := SplitOn(filename, '.');
    JoinSplit(filename, '.');
    LastBound(parts, '.');
    Last(parts)
  }

  lemma {:induction false} LastBound(parts: seq<string>, c: char)
    requires |parts| >= 1
    ensures |Last(parts)| <= |Join(parts, c)|
    decreases |parts|
  {
    if |parts| > 1 {
      LastBound(parts[1..], c);
    }
  }

  /** A name without a dot is its own extension. */
  lemma ExtensionNoDot(filename: string)
    requires '.' !in filename
    ensures Extension(filename) == filename
  {
    SplitNoSeparator(filename, '.');
  }

  /** Otherwise the extension is what follows the last dot. */
  lemma ExtensionAfterLastDot(stem: string, ext: string)
    requires '.' !in ext
    ensures Extension(stem + "." + ext) == ext
  {
    SplitAround(stem, '.', ext);
    SplitNoSeparator(ext, '.');
  }

  /** Every name is covered by one of the two lemmas above: the extension is
      the whole name, or a dot-free suffix preceded by a dot. */
  lemma ExtensionSuffix(filename: string)
    ensures Extension(filename) == filename ||
      exists stem :: filename == stem + "." + Extension(filename)
  {
    var parts := SplitOn(filename, '.');
    JoinSplit(filename, '.');
    if |parts| > 1 {
      var init := parts[..|parts| - 1];
      JoinSnoc(init, Last(parts), '.');
      assert init + [Last(parts)] == parts;
      assert filename == Join(init, '.') + "." + Last(parts);
    }
  }

  lemma {:induction false} JoinSnoc(parts: seq<string>, y: string, c: char)
    requires |parts| >= 1
    ensures Join(parts + [y], c) == Join(parts, c) + [c] + y
    decreases |parts|
  {
    assert (parts + [y])[0] == parts[0];
    if |parts| > 1 {
      assert (parts + [y])[1..] == parts[1..] + [y];
      JoinSnoc(parts[1..], y, c);
    } else {
      assert (parts + [y])[1..] == [y];
    }
  }

  /** `f"media/{uuid}.{extension}"`. */
  function FileDestination(id: string, filename: string): (path: string)
    ensures |path| > |"media/"| && path[..|"media/"|] == "media/"
  {
    "media/" + id + "." + Extension(filename)
  }

  /** The stored file keeps the uploaded extension; the rest of the uploaded
      name is dropped. With a dot-free identifier, as a UUID is, the path has
      exactly one dot: the folder and identifier before it, the extension
      after it. */
  lemma DestinationShape(id: string, filename: string)
    ensures Extension(FileDestination(id, filename)) == Extension(filename)
    ensures '.' !in id ==> SplitOn(FileDestination(id, filename), '.') == ["media/" + id, Extension(filename)]
  {
    var ext := Extension(filename);
    ExtensionAfterLastDot("media/" + id, ext);
    if '.' !in id {
      assert '.' !in "media/";
      SplitAround("media/" + id, '.', ext);
      SplitNoSeparator("media/" + id, '.');
      SplitNoSeparator(ext, '.');
    }
  }

  /** The uploaded stem plays no part: two names ending in the same segment
      are stored under the same path for the same identifier. */
  lemma StemDiscarded(id: string, stem1: string, stem2: string, ext: string)
    requires '.' !in ext
    ensures FileDestination(id, stem1 + "." + ext) == FileDestination(id, stem2 + "." + ext) ==
      "media/" + id + "." + ext
  {
    ExtensionAfterLastDot(stem1, ext);
    ExtensionAfterLastDot(stem2, ext);
  }

  /** Example: `receipt.final.JPG` under identifier `abc` goes to `media/abc.JPG`. */
  lemma DestinationExample()
    ensures FileDestination("abc", "receipt.final.JPG") == "media/abc.JPG"
  {
    var stem, ext := "receipt.final", "JPG";
    assert '.' !in ext;
    assert "receipt.final.JPG" == stem + "." + ext;
    ExtensionAfterLastDot(stem, ext);
    assert "media/abc.JPG" == "media/" + "abc" + "." + ext;
  }
}
