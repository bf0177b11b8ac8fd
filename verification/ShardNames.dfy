/** File names of coverage shards: the last component of a path and its dot-separated parts. */
module ShardNames {
  /** The parts after one more character. */
  function Extend(parts: seq<string>, c: char): (r: seq<string>)
    requires parts != []
    ensures r != []
  {
    if c == '.' then parts + [""] else parts[..|parts| - 1] + [parts[|parts| - 1] + [c]]
  }

  /** Python's `split('.')`. */
  function Split(s: string): (parts: seq<string>)
    ensures parts != []
  {
    if s == "" then [""] else Extend(Split(s[..|s| - 1]), s[|s| - 1])
  }

  /** The last component of a path. */
  function Base(path: string): string {
    if path == "" || path[|path| - 1] == '/' then "" else Base(path[..|path| - 1]) + [path[|path| - 1]]
  }

  lemma ExtendConcat(a: seq<string>, b: seq<string>, c: char)
    requires b != []
    ensures Extend(a + b, c) == a + Extend(b, c)
  {
  }

  lemma SplitSnoc(s: string, c: char)
    ensures Split(s + [c]) == Extend(Split(s), c)
  {
    assert (s + [c])[..|s|] == s;
  }

  lemma {:induction false} SplitConcat(a: string, b: string)
    ensures Split(a + "." + b) == Split(a) + Split(b)
    decreases |b|
  {
    SplitSnoc(a, '.');
    if b == "" {
      assert a + "." + b == a + ['.'];
    } else {
      var c, x := b[..|b| - 1], b[|b| - 1];
      SplitConcat(a, c);
      assert a + "." + b == (a + "." + c) + [x];
      SplitSnoc(a + "." + c, x);
      ExtendConcat(Split(a), Split(c), x);
    }
  }

  lemma {:induction false} SplitNoDot(s: string)
    requires '.' !in s
    ensures Split(s) == [s]
    decreases |s|
  {
    if s != "" {
      SplitNoDot(s[..|s| - 1]);
      assert s == s[..|s| - 1] + [s[|s| - 1]];
    }
  }

  lemma {:induction false} BaseOf(root: string, name: string)
    requires '/' !in name
    ensures Base(root + "/" + name) == name
    decreases |name|
  {
    var p := root + "/" + name;
    if name != "" {
      assert p[..|p| - 1] == root + "/" + name[..|name| - 1] && p[|p| - 1] == name[|name| - 1];
      BaseOf(root, name[..|name| - 1]);
      assert name == name[..|name| - 1] + [name[|name| - 1]];
    }
  }

  /** A name with a leading dot has an empty first part. */
  lemma LeadingDot(name: string)
    requires "." <= name
    ensures "" in Split(name)
  {
    assert name == "" + "." + name[1..];
    SplitConcat("", name[1..]);
    assert Split(name)[0] == "";
  }

  lemma ThreeParts(a: string, b: string, c: string)
    requires '.' !in a && '.' !in b && '.' !in c
    ensures Split(a + "." + (b + "." + c)) == [a, b, c]
  {
    SplitConcat(a, b + "." + c);
    SplitConcat(b, c);
    SplitNoDot(a);
    SplitNoDot(b);
    SplitNoDot(c);
  }

  /** Python's `'.'.join`. */
  function Join(parts: seq<string>): string
    requires parts != []
  {
    if |parts| == 1 then parts[0] else Join(parts[..|parts| - 1]) + "." + parts[|parts| - 1]
  }

  lemma {:induction false} JoinSplit(s: string)
    ensures Join(Split(s)) == s
    decreases |s|
  {
    if s != "" {
      var init, c := s[..|s| - 1], s[|s| - 1];
      var parts := Split(init);
      JoinSplit(init);
      assert s == init + [c];
      if c == '.' {
        assert (parts + [""])[..|parts|] == parts;
      } else if |parts| > 1 {
        var more := Extend(parts, c);
        assert more[..|more| - 1] == parts[..|parts| - 1];
        assert Join(parts) == Join(parts[..|parts| - 1]) + "." + parts[|parts| - 1];
        assert Join(more) == Join(parts[..|parts| - 1]) + "." + (parts[|parts| - 1] + [c]);
      }
    }
  }

  lemma {:induction false} JoinConcat(a: seq<string>, b: seq<string>)
    requires a != [] && b != []
    ensures Join(a + b) == Join(a) + "." + Join(b)
    decreases |b|
  {
    var c := a + b;
    if |b| == 1 {
      assert c[..|c| - 1] == a;
    } else {
      var init, last := b[..|b| - 1], b[|b| - 1];
      assert c[..|c| - 1] == a + init;
      JoinConcat(a, init);
      assert Join(c) == Join(a) + "." + Join(init) + "." + last;
      assert Join(b) == Join(init) + "." + last;
    }
  }

  lemma DotsGivePart(a: string, word: string, b: string)
    requires '.' !in word
    ensures Split(a + "." + (word + "." + b)) == Split(a) + ([word] + Split(b))
  {
    SplitConcat(a, word + "." + b);
    SplitConcat(word, b);
    SplitNoDot(word);
  }

  lemma PartGivesDots(name: string, i: nat) returns (a: string, b: string)
    requires 0 < i < |Split(name)| - 1
    ensures name == a + "." + (Split(name)[i] + "." + b)
  {
    var parts := Split(name);
    var left, right := parts[..i], parts[i + 1..];
    a, b := Join(left), Join(right);
    JoinSplit(name);
    JoinConcat([parts[i]], right);
    JoinConcat(left, [parts[i]] + right);
    assert parts == left + ([parts[i]] + right);
  }

  /** A word between two dots of a name is a part that is neither the first nor the last. */
  lemma BetweenDots(name: string, word: string)
    requires '.' !in word
    ensures (exists a: string, b: string :: name == a + "." + (word + "." + b)) <==>
            exists i :: 0 < i < |Split(name)| - 1 && Split(name)[i] == word
  {
    if a: string, b: string :| name == a + "." + (word + "." + b) {
      DotsGivePart(a, word, b);
      assert Split(name)[|Split(a)|] == word;
    }
    if i :| 0 < i < |Split(name)| - 1 && Split(name)[i] == word {
      var a, b := PartGivesDots(name, i);
    }
  }
}
