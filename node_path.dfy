/**
 * The POSIX flavour of Node's `path` module, as far as the upload server
 * uses it: `path.extname`, the `name` field of `path.parse`, and
 * `path.join` with the normalisation it applies.
 */
module NodePath {

  /** The index of the last `c` in `s`, or -1. */
  function LastIndexOf(s: string, c: char): (k: int)
    ensures -1 <= k < |s|
    ensures k >= 0 ==> s[k] == c
    ensures forall i :: k < i < |s| ==> s[i] != c
  {
    if s == [] then -1
    else if s[|s| - 1] == c then |s| - 1
    else LastIndexOf(s[..|s| - 1], c)
  }

  /** `p` without the path separators it ends with. */
  function TrimTrailingSlashes(p: string): (r: string)
    ensures |r| <= |p| && r == p[..|r|]
    ensures r == [] || r[|r| - 1] != '/'
    ensures forall i :: |r| <= i < |p| ==> p[i] == '/'
  {
    if p != [] && p[|p| - 1] == '/' then TrimTrailingSlashes(p[..|p| - 1]) else p
  }

  /** The last path component (what `path.basename` gives). */
  function Base(p: string): (b: string)
    ensures '/' !in b
  {
    var t := TrimTrailingSlashes(p);
    var k := LastIndexOf(t, '/');
    t[k + 1..]
  }

  /**
   * `path.extname(p)`: from the last `.` of the last component to its end,
   * unless the component has no `.`, starts with its only leading run of
   * dots followed by nothing else than that `.` (a dot-file such as `.env`),
   * or is `..`.
   */
  function ExtName(p: string): (e: string)
    ensures e == [] || (e[0] == '.' && '.' !in e[1..])
    ensures '/' !in e
    ensures |e| <= |Base(p)| && Base(p)[|Base(p)| - |e|..] == e
    ensures e != [] ==> |e| < |Base(p)|
  {
    var b := Base(p);
    var k := LastIndexOf(b, '.');
    if k <= 0 || b == ".." then ""
    else
      assert forall i :: 1 <= i < |b| - k ==> b[k..][i] == b[k + i];
      b[k..]
  }

  /** The `name` field of `path.parse(p)`: the last component without its extension. */
  function ParseName(p: string): (name: string)
    ensures name + ExtName(p) == Base(p)
  {
    var b, e := Base(p), ExtName(p);
    assert b == b[..|b| - |e|] + b[|b| - |e|..];
    b[..|b| - |e|]
  }

  /** An extension as `ExtName` returns it: empty, or one `.` followed by neither `.` nor `/`. */
  predicate IsExtension(e: string) {
    (e == [] || (e[0] == '.' && '.' !in e[1..])) && '/' !in e
  }

  /**
   * A component with no `.` and no `/`, followed by an extension, parses
   * back into exactly those two parts.
   */
  lemma SplitsAtExtension(stem: string, e: string)
    requires stem != [] && '.' !in stem && '/' !in stem
    requires IsExtension(e)
    ensures Base(stem + e) == stem + e
    ensures ExtName(stem + e) == e
    ensures ParseName(stem + e) == stem
  {
    var p := stem + e;
    assert '/' !in p by {
      forall i | 0 <= i < |p| ensures p[i] != '/' {
        if i < |stem| { assert p[i] == stem[i]; } else { assert p[i] == e[i - |stem|]; }
      }
    }
    assert TrimTrailingSlashes(p) == p;
    assert LastIndexOf(p, '/') == -1;
    assert p[0..] == p;
    var k := LastIndexOf(p, '.');
    if e == [] {
      assert p == stem;
      assert k == -1;
    } else {
      assert p[|stem|] == '.';
      assert forall i :: |stem| < i < |p| ==> p[i] == e[1..][i - |stem| - 1];
      assert k == |stem|;
      assert p != ".." by { assert p[0] == stem[0]; }
      assert p[k..] == e;
    }
  }

  /** `s.split('/')`. */
  function Split(s: string): (parts: seq<string>)
    ensures |parts| >= 1
    decreases |s|
  {
    var k := FirstIndexOf(s, '/');
    if k < 0 then [s] else [s[..k]] + Split(s[k + 1..])
  }

  /** The index of the first `c` in `s`, or -1. */
  function FirstIndexOf(s: string, c: char): (k: int)
    ensures -1 <= k < |s|
    ensures k >= 0 ==> s[k] == c
    ensures forall i :: 0 <= i < |s| && (k < 0 || i < k) ==> s[i] != c
  {
    if s == [] then -1
    else if s[0] == c then 0
    else
      var k := FirstIndexOf(s[1..], c);
      if k < 0 then -1 else k + 1
  }

  /**
   * One step of `path.normalize`: empty and `.` components vanish, `..`
   * removes the component before it (above the root of an absolute path it
   * vanishes; in a relative path it is kept), anything else is appended.
   */
  function Step(stack: seq<string>, part: string, absolute: bool): seq<string> {
    if part == "" || part == "." then stack
    else if part == ".." then
      if |stack| > 0 && stack[|stack| - 1] != ".." then stack[..|stack| - 1]
      else if absolute then stack
      else stack + [".."]
    else stack + [part]
  }

  function Resolve(parts: seq<string>, absolute: bool): seq<string> {
    if parts == [] then [] else Step(Resolve(parts[..|parts| - 1], absolute), parts[|parts| - 1], absolute)
  }

  /** The components joined by `/`. */
  function JoinParts(parts: seq<string>): string {
    if parts == [] then ""
    else if |parts| == 1 then parts[0]
    else JoinParts(parts[..|parts| - 1]) + "/" + parts[|parts| - 1]
  }

  /** `path.normalize(p)`. */
  function Normalize(p: string): (r: string)
    ensures r != []
    ensures p != [] && p[0] == '/' ==> r[0] == '/'
    ensures p != [] && p[|p| - 1] == '/' ==> r[|r| - 1] == '/'
  {
    if p == [] then "."
    else
      var absolute := p[0] == '/';
      var trailing := p[|p| - 1] == '/';
      var body := JoinParts(Resolve(Split(p), absolute));
      if body == [] then (if absolute then "/" else if trailing then "./" else ".")
      else (if absolute then "/" else "") + body + (if trailing then "/" else "")
  }

  /** `path.join(dir, name)`: the non-empty arguments joined by `/`, normalised. */
  function Join(dir: string, name: string): (r: string)
    ensures r != []
  {
    if dir == [] then Normalize(name)
    else if name == [] then Normalize(dir)
    else Normalize(dir + "/" + name)
  }

  /** Splitting at a separator splits the two sides independently. */
  lemma {:induction false} SplitAppend(a: string, b: string)
    ensures Split(a + "/" + b) == Split(a) + Split(b)
    decreases |a|
  {
    var s := a + "/" + b;
    FirstSlashOfJoined(a, b);
    var k0 := FirstIndexOf(a, '/');
    if k0 < 0 {
      SplitUnfold(s, |a|);
      assert s[..|a|] == a && s[|a| + 1..] == b;
    } else {
      var tail := a[k0 + 1..];
      SlicesOfJoined(a, b, k0);
      SplitUnfold(s, k0);
      SplitUnfold(a, k0);
      SplitAppend(tail, b);
      var head, rest, more := a[..k0], Split(tail), Split(b);
      assert Split(s) == [head] + (rest + more);
      ConsAssoc(head, rest, more);
    }
  }

  /** Regrouping a sequence built from the front. */
  lemma ConsAssoc<T>(x: T, p: seq<T>, q: seq<T>)
    ensures [x] + (p + q) == ([x] + p) + q
  {
  }

  /** One step of `Split` at the first separator. */
  lemma SplitUnfold(s: string, k: int)
    requires 0 <= k && k == FirstIndexOf(s, '/')
    ensures Split(s) == [s[..k]] + Split(s[k + 1..])
  {
  }

  /** The first separator of `a + "/" + b` is the first one of `a`, or the one added. */
  lemma FirstSlashOfJoined(a: string, b: string)
    ensures var k0 := FirstIndexOf(a, '/');
      FirstIndexOf(a + "/" + b, '/') == if k0 < 0 then |a| else k0
  {
    var s := a + "/" + b;
    var k0 := FirstIndexOf(a, '/');
    var k := FirstIndexOf(s, '/');
    assert s[|a|] == '/';
    assert forall i :: 0 <= i < |a| ==> s[i] == a[i];
    if k0 < 0 {
      assert k == |a|;
    } else {
      assert s[k0] == '/';
      assert k == k0;
    }
  }

  /** Cutting `a + "/" + b` at a separator of `a`. */
  lemma SlicesOfJoined(a: string, b: string, k0: int)
    requires 0 <= k0 < |a|
    ensures (a + "/" + b)[..k0] == a[..k0]
    ensures (a + "/" + b)[k0 + 1..] == a[k0 + 1..] + "/" + b
  {
  }

  /** A component `path.normalize` keeps as it is: not empty, `.` or `..`. */
  predicate Plain(part: string) {
    part != "" && part != "." && part != ".."
  }

  /** Joining from the front: the first component, a separator, then the rest joined. */
  lemma {:induction false} JoinPartsCons(head: string, rest: seq<string>)
    requires rest != []
    ensures JoinParts([head] + rest) == head + "/" + JoinParts(rest)
    decreases |rest|
  {
    var parts := [head] + rest;
    if |rest| > 1 {
      var init, last := rest[..|rest| - 1], rest[|rest| - 1];
      assert rest == init + [last];
      assert parts == ([head] + init) + [last];
      JoinPartsCons(head, init);
      JoinPartsSnoc([head] + init, last);
      JoinPartsSnoc(init, last);
      Regroup(head + "/", JoinParts(init), last);
    } else {
      assert parts[..1] == [head];
    }
  }

  /** Joining the components of a path by `/` gives the path back. */
  lemma {:induction false} SplitJoinRoundTrip(s: string)
    ensures JoinParts(Split(s)) == s
    decreases |s|
  {
    var k := FirstIndexOf(s, '/');
    if k >= 0 {
      var head, tail := s[..k], s[k + 1..];
      SplitUnfold(s, k);
      SplitJoinRoundTrip(tail);
      JoinPartsCons(head, Split(tail));
      assert s == head + "/" + tail;
    }
  }

  /** Plain components after a prefix each push themselves onto the stack. */
  lemma {:induction false} ResolveAppendPlain(prefix: seq<string>, plain: seq<string>, absolute: bool)
    requires forall i :: 0 <= i < |plain| ==> Plain(plain[i])
    ensures Resolve(prefix + plain, absolute) == Resolve(prefix, absolute) + plain
    decreases |plain|
  {
    if plain == [] {
      assert prefix + plain == prefix;
    } else {
      var init, last := plain[..|plain| - 1], plain[|plain| - 1];
      ResolveAppendPlain(prefix, init, absolute);
      assert prefix + plain == (prefix + init) + [last];
      ResolveSnoc(prefix + init, last, absolute);
      assert init + [last] == plain;
    }
  }

  /** A path with no `/` is a single component. */
  lemma SplitSingle(c: string)
    requires '/' !in c
    ensures Split(c) == [c]
  {
    assert FirstIndexOf(c, '/') == -1;
  }

  /** An absolute path without a trailing `/` normalises to `/` and its resolved components. */
  lemma NormalizeRooted(s: string)
    requires s != [] && s[0] == '/' && s[|s| - 1] != '/'
    requires JoinParts(Resolve(Split(s), true)) != []
    ensures Normalize(s) == "/" + JoinParts(Resolve(Split(s), true))
  {
  }

  /** Below the root, plain components resolve to themselves. */
  lemma ResolveRooted(parts: seq<string>)
    requires parts != [] && parts[0] == ""
    requires forall i :: 1 <= i < |parts| ==> Plain(parts[i])
    ensures Resolve(parts, true) == parts[1..]
  {
    assert parts == [""] + parts[1..];
    ResolveAppendPlain([""], parts[1..], true);
    ResolveSnoc([], "", true);
    assert [] + [""] == [""];
  }

  /** The components of a rooted path after the root, joined, give the path without its leading `/`. */
  lemma JoinPartsRooted(parts: seq<string>)
    requires |parts| >= 2 && parts[0] == ""
    ensures "/" + JoinParts(parts[1..]) == JoinParts(parts)
  {
    assert parts == [""] + parts[1..];
    JoinPartsCons("", parts[1..]);
  }

  /** Joining one more component adds a separator and it. */
  lemma JoinPartsSnoc(parts: seq<string>, c: string)
    requires parts != []
    ensures JoinParts(parts + [c]) == JoinParts(parts) + "/" + c
  {
    assert (parts + [c])[..|parts|] == parts;
  }

  /**
   * `path.join` of a normalised absolute directory (no trailing `/`, no
   * empty, `.` or `..` component) and a plain component without `/` is
   * the directory, a separator and the component, as they are.
   */
  lemma JoinPlainComponent(dir: string, c: string)
    requires |Split(dir)| >= 2 && Split(dir)[0] == ""
    requires forall i :: 1 <= i < |Split(dir)| ==> Plain(Split(dir)[i])
    requires Plain(c) && '/' !in c
    ensures Join(dir, c) == dir + "/" + c
  {
    NormalizeJoined(dir, c);
    JoinNonEmpty(dir, c);
  }

  /** With both arguments non-empty, `path.join` normalises their concatenation around a separator. */
  lemma JoinNonEmpty(dir: string, name: string)
    requires dir != [] && name != []
    ensures Join(dir, name) == Normalize(dir + "/" + name)
  {
  }

  /** The normalisation behind `JoinPlainComponent`, one fact per helper lemma. */
  lemma NormalizeJoined(dir: string, c: string)
    requires |Split(dir)| >= 2 && Split(dir)[0] == ""
    requires forall i :: 1 <= i < |Split(dir)| ==> Plain(Split(dir)[i])
    requires Plain(c) && '/' !in c
    ensures Normalize(dir + "/" + c) == dir + "/" + c
  {
    var parts := Split(dir);
    var full := parts + [c];
    SplitJoinedSingle(dir, c);
    RootedPlainSnoc(parts, c);
    ResolveRooted(full);
    TailSnoc(parts, c);
    JoinPartsSnoc(parts[1..], c);
    JoinPartsRooted(parts);
    SplitJoinRoundTrip(dir);
    RootedStartsWithSlash(dir);
    NormalizeFromParts(dir + "/" + c, full, full[1..], JoinParts(parts[1..]), dir, c);
  }

  lemma SplitJoinedSingle(dir: string, c: string)
    requires '/' !in c
    ensures Split(dir + "/" + c) == Split(dir) + [c]
  {
    SplitAppend(dir, c);
    SplitSingle(c);
  }

  lemma RootedPlainSnoc(parts: seq<string>, c: string)
    requires |parts| >= 2 && parts[0] == ""
    requires forall i :: 1 <= i < |parts| ==> Plain(parts[i])
    requires Plain(c)
    ensures (parts + [c])[0] == "" && forall i :: 1 <= i < |parts + [c]| ==> Plain((parts + [c])[i])
  {
  }

  lemma TailSnoc(parts: seq<string>, c: string)
    requires parts != []
    ensures (parts + [c])[1..] == parts[1..] + [c]
  {
  }

  /** A path whose first component is empty starts with `/`. */
  lemma RootedStartsWithSlash(dir: string)
    requires |Split(dir)| >= 2 && Split(dir)[0] == ""
    ensures dir != [] && dir[0] == '/'
  {
    assert FirstIndexOf(dir, '/') == 0;
  }

  /** The last step: the normal form read off the resolved components. */
  lemma NormalizeFromParts(s: string, full: seq<string>, resolved: seq<string>, js: string, dir: string, c: string)
    requires dir != [] && dir[0] == '/' && c != [] && '/' !in c && s == dir + "/" + c
    requires Split(s) == full && Resolve(full, true) == resolved
    requires JoinParts(resolved) == js + "/" + c && "/" + js == dir
    ensures Normalize(s) == dir + "/" + c
  {
    assert s[0] == '/' && s[|s| - 1] == c[|c| - 1];
    assert c[|c| - 1] != '/' by {
      assert c[|c| - 1] in c;
    }
    NormalizeRooted(s);
    Regroup("/", js, c);
  }

  /** Sequence concatenation regrouped around a separator. */
  lemma Regroup(root: string, js: string, c: string)
    ensures root + (js + "/" + c) == (root + js) + "/" + c
  {
  }

  /** `p` lies below the directory `dir`: its components extend the directory's. */
  predicate Descendant(p: string, dir: string) {
    var ps, ds := Split(p), Split(dir);
    |ds| < |ps| && ps[..|ds|] == ds
  }

  // A worked example: joining `../ab` to `/a` climbs out of `/a`.

  /** Three components without `/`, joined by it, split back into themselves. */
  lemma SplitThree(x: string, y: string, z: string)
    requires '/' !in x && '/' !in y && '/' !in z
    ensures Split(x + "/" + y + "/" + z) == [x, y, z]
  {
    SplitAppend(x + "/" + y, z);
    SplitAppend(x, y);
    SplitSingle(x);
    SplitSingle(y);
    SplitSingle(z);
  }

  /** `Resolve` takes one more component by one more `Step`. */
  lemma ResolveSnoc(parts: seq<string>, part: string, absolute: bool)
    ensures Resolve(parts + [part], absolute) == Step(Resolve(parts, absolute), part, absolute)
  {
    assert (parts + [part])[..|parts|] == parts;
  }

  /** Below the root, a `..` after a component cancels it. */
  lemma ResolveClimb(a: string, b: string)
    requires Plain(a) && Plain(b)
    ensures Resolve(["", a, "..", b], true) == [b]
  {
    var p0: seq<string> := [];
    var p1, p2, p3, p4 := p0 + [""], p0 + ["", a], p0 + ["", a, ".."], p0 + ["", a, "..", b];
    var r1, r2, r3: seq<string> := [], [a], [];
    assert Resolve(p1, true) == r1 by {
      ResolveSnoc(p0, "", true);
    }
    assert Resolve(p2, true) == r2 by {
      assert p2 == p1 + [a];
      ResolveSnoc(p1, a, true);
    }
    assert Resolve(p3, true) == r3 by {
      assert p3 == p2 + [".."];
      ResolveSnoc(p2, "..", true);
    }
    assert Resolve(p4, true) == [b] by {
      assert p4 == p3 + [b];
      ResolveSnoc(p3, b, true);
    }
    assert p4 == ["", a, "..", b];
  }

  /** The path `/a/../b` splits into the root, `a`, `..` and `b`. */
  lemma SplitClimb(a: string, b: string)
    requires '/' !in a && '/' !in b
    ensures Split("/" + a + "/" + "../" + b) == ["", a, "..", b]
  {
    var inner := a + "/" + ".." + "/" + b;
    assert "/" + a + "/" + "../" + b == "" + "/" + inner;
    SplitThree(a, "..", b);
    SplitAppend("", inner);
    SplitSingle("");
  }

  /** `path.normalize('/a/../b')` is `/b`. */
  lemma NormalizeClimb(a: string, b: string)
    requires Plain(a) && Plain(b) && '/' !in a && '/' !in b
    ensures Normalize("/" + a + "/" + "../" + b) == "/" + b
  {
    var s := "/" + a + "/" + "../" + b;
    SplitClimb(a, b);
    ResolveClimb(a, b);
    assert JoinParts([b]) == b;
    assert s[0] == '/' && s[|s| - 1] == b[|b| - 1];
    NormalizeRooted(s);
  }

  /** `path.join('/' + a, '../' + b)` is `/` + b: a `..` in the name leaves the directory. */
  lemma JoinClimb(a: string, b: string)
    requires Plain(a) && Plain(b) && '/' !in a && '/' !in b
    ensures Join("/" + a, "../" + b) == "/" + b
  {
    NormalizeClimb(a, b);
    JoinNonEmpty("/" + a, "../" + b);
    assert ("/" + a) + "/" + ("../" + b) == "/" + a + "/" + "../" + b;
  }

  /** `path.join('/a', '../ab')` is `/ab`. */
  lemma JoinExample()
    ensures Join("/a", "../ab") == "/ab"
  {
    assert "ab" != ".." by { assert "ab"[0] != ".."[0]; }
    JoinClimb("a", "ab");
    assert "/" + "a" == "/a" && "../" + "ab" == "../ab" && "/" + "ab" == "/ab";
  }

  /** `"/" + c` splits into an empty component and `c`, for a component `c` without `/`. */
  lemma SplitRooted(c: string)
    requires '/' !in c
    ensures Split("/" + c) == ["", c]
  {
    var s := "/" + c;
    assert FirstIndexOf(s, '/') == 0 && s[..0] == "" && s[1..] == c;
    assert FirstIndexOf(c, '/') == -1;
  }

  /** The joined path `/ab` is not below `/a`: the directory tree does not follow the string prefix. */
  lemma JoinClimbsOut()
    ensures Join("/a", "../ab") == "/ab"
    ensures Split("/ab") == ["", "ab"] && Split("/a") == ["", "a"]
    ensures !Descendant("/ab", "/a")
  {
    JoinExample();
    SplitRooted("ab");
    SplitRooted("a");
  }
}
