/** The key resolver: a dotted key is cut into its non-empty segments, which
    are followed from the root of a message tree to a leaf string. */
module I18nUtils {
  import opened Wrappers
  import opened I18nConfig

  const Dot: char := '.'

  /** The pieces of `s` between occurrences of the dot, empty pieces included,
      as a string `split` on the separator returns them. */
  function SplitOnDot(s: string): (r: seq<string>)
    ensures |r| >= 1
    ensures forall i :: 0 <= i < |r| ==> Dot !in r[i]
  {
    if s == [] then [""]
    else
      var rest := SplitOnDot(s[1..]);
      if s[0] == Dot then [""] + rest
      else [[s[0]] + rest[0]] + rest[1..]
  }

  /** The pieces that are not empty, in order. */
  function NonEmpty(pieces: seq<string>): (r: seq<string>)
    ensures forall i :: 0 <= i < |r| ==> r[i] != "" && r[i] in pieces
    ensures |r| <= |pieces|
  {
    if pieces == [] then []
    else if pieces[0] == "" then NonEmpty(pieces[1..])
    else [pieces[0]] + NonEmpty(pieces[1..])
  }

  /** The segments of a dotted key: never empty and never holding a dot. */
  function Segments(key: string): (r: seq<string>)
    ensures forall i :: 0 <= i < |r| ==> r[i] != "" && Dot !in r[i]
  {
    NonEmpty(SplitOnDot(key))
  }

  /** Follows `path` from `node`: each step needs a map holding the segment. */
  function Walk(node: TranslationValue, path: seq<string>): (r: Option<TranslationValue>)
    ensures path == [] ==> r == Some(node)
    ensures path != [] && node.Leaf? ==> r == None
    ensures path != [] && node.Branch? && path[0] !in node.children ==> r == None
    decreases |path|
  {
    if path == [] then Some(node)
    else
      match node
      case Leaf(_) => None
      case Branch(children) =>
        if path[0] in children then Walk(children[path[0]], path[1..]) else None
  }

  /** What `getMessage` returns: the string of the leaf that the key's
      segments reach from the root, and nothing otherwise. */
  function Resolve(messages: TranslationMessages, key: string): (r: Option<string>)
    ensures Segments(key) == [] ==> r == None
    ensures r.Some? ==> Walk(Branch(messages), Segments(key)) == Some(Leaf(r.value))
  {
    match Walk(Branch(messages), Segments(key))
    case Some(Leaf(s)) => Some(s)
    case _ => None
  }

  /** `getMessage`: walks the segments of `key` one by one, giving up as soon as
      the current node is a leaf or lacks the next segment. */
  method GetMessage(messages: TranslationMessages, key: string) returns (r: Option<string>)
    ensures r == Resolve(messages, key)
  {
    var segments := Segments(key);
    var current := Branch(messages);
    for i := 0 to |segments|
      invariant Walk(Branch(messages), segments[..i]) == Some(current)
    {
      WalkAppend(Branch(messages), segments[..i], segments[i..]);
      assert segments[..i] + segments[i..] == segments;
      match current
      case Leaf(_) =>
        return None;
      case Branch(children) =>
        if segments[i] !in children {
          return None;
        }
        WalkAppend(Branch(messages), segments[..i], [segments[i]]);
        assert segments[..i] + [segments[i]] == segments[..i + 1];
        current := children[segments[i]];
    }
    assert segments[..|segments|] == segments;
    r := if current.Leaf? then Some(current.text) else None;
  }

  // ---------------------------------------------------------------------------
  // The walk

  /** Walking `p + q` is walking `p`, then walking `q` from where `p` ended. */
  lemma {:induction false} WalkAppend(node: TranslationValue, p: seq<string>, q: seq<string>)
    ensures Walk(node, p + q) == match Walk(node, p) case None => None case Some(n) => Walk(n, q)
    decreases |p|
  {
    if p == [] {
      assert p + q == q;
    } else {
      assert (p + q)[0] == p[0] && (p + q)[1..] == p[1..] + q;
      match node
      case Leaf(_) =>
      case Branch(children) =>
        if p[0] in children {
          WalkAppend(children[p[0]], p[1..], q);
        }
    }
  }

  /** Once the walk reaches a leaf, any further segment misses. */
  lemma LeafThenMoreMisses(node: TranslationValue, p: seq<string>, q: seq<string>, s: string)
    requires Walk(node, p) == Some(Leaf(s))
    requires q != []
    ensures Walk(node, p + q) == None
  {
    WalkAppend(node, p, q);
  }

  /** A resolved key names a leaf; one more segment after it resolves to nothing. */
  lemma ResolvedLeafExtendedMisses(messages: TranslationMessages, key: string, more: string, s: string)
    requires Resolve(messages, key) == Some(s)
    requires Segments(more) != []
    ensures Resolve(messages, key + "." + more) == None
  {
    SegmentsConcat(key, more);
    LeafThenMoreMisses(Branch(messages), Segments(key), Segments(more), s);
  }

  /** A key that names a branch, rather than a leaf, resolves to nothing. */
  lemma BranchKeyMisses(messages: TranslationMessages, key: string, sub: TranslationMessages)
    requires Walk(Branch(messages), Segments(key)) == Some(Branch(sub))
    ensures Resolve(messages, key) == None
  {
  }

  /** Resolving with a defined result means the segments lead to that leaf,
      and conversely. */
  lemma ResolveCharacterised(messages: TranslationMessages, key: string, s: string)
    ensures Resolve(messages, key) == Some(s) <==> Walk(Branch(messages), Segments(key)) == Some(Leaf(s))
  {
  }

  /** Prefixing a key with a namespace that leads to a sub-tree resolves the
      key inside that sub-tree. */
  lemma NamespaceIsSubtree(messages: TranslationMessages, ns: string, key: string, sub: TranslationMessages)
    requires Walk(Branch(messages), Segments(ns)) == Some(Branch(sub))
    ensures Resolve(messages, ns + "." + key) == Resolve(sub, key)
  {
    SegmentsConcat(ns, key);
    WalkAppend(Branch(messages), Segments(ns), Segments(key));
  }

  // ---------------------------------------------------------------------------
  // Splitting keys

  /** Splitting around one dot splits each side and joins the pieces. */
  lemma {:induction false} SplitConcat(a: string, b: string)
    ensures SplitOnDot(a + [Dot] + b) == SplitOnDot(a) + SplitOnDot(b)
    decreases |a|
  {
    if a == [] {
      assert a + [Dot] + b == [Dot] + b;
      assert ([Dot] + b)[1..] == b;
    } else {
      assert (a + [Dot] + b)[0] == a[0];
      assert (a + [Dot] + b)[1..] == a[1..] + [Dot] + b;
      SplitConcat(a[1..], b);
    }
  }

  lemma {:induction false} NonEmptyConcat(p: seq<string>, q: seq<string>)
    ensures NonEmpty(p + q) == NonEmpty(p) + NonEmpty(q)
    decreases |p|
  {
    if p == [] {
      assert p + q == q;
    } else {
      assert (p + q)[0] == p[0] && (p + q)[1..] == p[1..] + q;
      NonEmptyConcat(p[1..], q);
    }
  }

  /** The segments of `a + "." + b` are those of `a` followed by those of `b`. */
  lemma SegmentsConcat(a: string, b: string)
    ensures Segments(a + "." + b) == Segments(a) + Segments(b)
  {
    assert a + "." + b == a + [Dot] + b;
    SplitConcat(a, b);
    NonEmptyConcat(SplitOnDot(a), SplitOnDot(b));
  }

  /** A string without dots is a single piece. */
  lemma {:induction false} SplitNoDot(s: string)
    requires Dot !in s
    ensures SplitOnDot(s) == [s]
    decreases |s|
  {
    if s != [] {
      SplitNoDot(s[1..]);
      assert [s[0]] + s[1..] == s;
    }
  }

  /** A key made only of dots, the empty key included, has no segments. */
  lemma {:induction false} OnlyDotsHasNoSegments(key: string)
    requires forall i :: 0 <= i < |key| ==> key[i] == Dot
    ensures Segments(key) == []
    decreases |key|
  {
    if key != [] {
      OnlyDotsHasNoSegments(key[1..]);
      assert key == [] + [Dot] + key[1..];
      SegmentsConcat([], key[1..]);
    }
  }

  /** Such a key ends the walk at the root, which is a map: nothing resolves. */
  lemma OnlyDotsKeyMisses(messages: TranslationMessages, key: string)
    requires forall i :: 0 <= i < |key| ==> key[i] == Dot
    ensures Resolve(messages, key) == None
  {
    OnlyDotsHasNoSegments(key);
  }

  /** Doubled, leading and trailing dots add only empty pieces. */
  lemma SegmentsIgnoreEmpty(a: string, b: string)
    ensures Segments(a + ".." + b) == Segments(a + "." + b)
    ensures Segments("." + a) == Segments(a)
    ensures Segments(a + ".") == Segments(a)
  {
    assert Segments("") == [];
    assert a + ".." + b == (a + "." + "") + "." + b;
    SegmentsConcat(a + "." + "", b);
    SegmentsConcat(a, "");
    SegmentsConcat(a, b);
    assert "." + a == "" + "." + a;
    SegmentsConcat("", a);
    assert a + "." == a + "." + "";
  }

  /** So `"a..b"`, `".a"` and `"a."` resolve as `"a.b"` and `"a"` do. */
  lemma EmptySegmentsIgnored(messages: TranslationMessages, a: string, b: string)
    ensures Resolve(messages, a + ".." + b) == Resolve(messages, a + "." + b)
    ensures Resolve(messages, "." + a) == Resolve(messages, a)
    ensures Resolve(messages, a + ".") == Resolve(messages, a)
  {
    SegmentsIgnoreEmpty(a, b);
  }

  /** The segments of a two-part key written with one dot. */
  lemma TwoSegments(a: string, b: string)
    requires a != "" && Dot !in a && b != "" && Dot !in b
    ensures Segments(a + "." + b) == [a, b]
  {
    SegmentsConcat(a, b);
    SplitNoDot(a);
    SplitNoDot(b);
  }

  /** The dotted join of segments. */
  function Join(segments: seq<string>): string
  {
    if segments == [] then ""
    else if |segments| == 1 then segments[0]
    else segments[0] + "." + Join(segments[1..])
  }

  /** Joining well-formed segments with dots and splitting again gives them back. */
  lemma {:induction false} SegmentsOfJoin(segments: seq<string>)
    requires forall i :: 0 <= i < |segments| ==> segments[i] != "" && Dot !in segments[i]
    ensures Segments(Join(segments)) == segments
    decreases |segments|
  {
    if segments == [] {
    } else if |segments| == 1 {
      SplitNoDot(segments[0]);
    } else {
      SegmentsConcat(segments[0], Join(segments[1..]));
      SplitNoDot(segments[0]);
      SegmentsOfJoin(segments[1..]);
      assert [segments[0]] + segments[1..] == segments;
    }
  }
}
