/** Paths in the snapshot space, and the lock label of a file. */
module Paths {
  const SNDIR: string := "/snapshots"

  /** A virtual path in the snapshot space: the snapshots directory, a snapshot, or a path in a snapshot. */
  datatype SnPath = Root | Id(id: string) | Full(id: string, inpath: string)

  predicate InSnapshots(path: string) {
    SNDIR <= path && (|path| == |SNDIR| || path[|SNDIR|] == '/')
  }

  /** Position of the first slash from `from` on, or the end of the string. */
  function FindSlash(s: string, from: nat): (i: nat)
    requires from <= |s|
    ensures from <= i <= |s| && (i < |s| ==> s[i] == '/') && forall j | from <= j < i :: s[j] != '/'
    decreases |s| - from
  {
    if from == |s| || s[from] == '/' then from else FindSlash(s, from + 1)
  }

  /** Breaks up a path that is known to start with the snapshots directory. */
  function Decompose(path: string): SnPath
    requires InSnapshots(path)
  {
    var start := |SNDIR|;
    if |path| <= start + 1 then Root
    else
      var slash := FindSlash(path, start + 1);
      if slash == |path| then Id(path[start..])
      else if slash == start + 1 then Root
      else if slash == |path| - 1 then Id(path[start..|path| - 1])
      else Full(path[start..slash], path[slash..])
  }

  /** "/ID" with a name that is not empty and has no slash. */
  predicate IsId(id: string) {
    |id| > 1 && id[0] == '/' && forall j | 1 <= j < |id| :: id[j] != '/'
  }

  /** "/..." with something after the slash. */
  predicate IsInPath(inpath: string) {
    |inpath| > 1 && inpath[0] == '/'
  }

  lemma FirstSlash(s: string, from: nat, i: nat)
    requires from <= i < |s| && s[i] == '/' && forall j | from <= j < i :: s[j] != '/'
    ensures FindSlash(s, from) == i
  {
  }

  /** A path decomposes into a snapshot and a path in it exactly when it is their concatenation, so the parts rebuild
      the path and no other parts do. */
  lemma FullIffRebuilds(path: string, id: string, inpath: string)
    requires InSnapshots(path)
    ensures Decompose(path) == Full(id, inpath) <==> path == SNDIR + id + inpath && IsId(id) && IsInPath(inpath)
  {
    if path == SNDIR + id + inpath && IsId(id) && IsInPath(inpath) {
      var at := |SNDIR| + |id|;
      assert path[at] == inpath[0] == '/';
      forall j | |SNDIR| + 1 <= j < at ensures path[j] != '/' {
        assert path[j] == id[j - |SNDIR|];
      }
      FirstSlash(path, |SNDIR| + 1, at);
      assert path[|SNDIR|..at] == id && path[at..] == inpath;
    }
  }

  /** A path is that of a snapshot exactly when it is the directory and the name, with or without a final slash. */
  lemma IdIffRebuilds(path: string, id: string)
    requires InSnapshots(path)
    ensures Decompose(path) == Id(id) <==> IsId(id) && (path == SNDIR + id || path == SNDIR + id + "/")
  {
    if IsId(id) && (path == SNDIR + id || path == SNDIR + id + "/") {
      var at := |SNDIR| + |id|;
      forall j | |SNDIR| + 1 <= j < at ensures path[j] != '/' {
        assert path[j] == id[j - |SNDIR|];
      }
      if path == SNDIR + id {
        assert FindSlash(path, |SNDIR| + 1) == |path|;
      } else {
        assert path[at] == '/';
        FirstSlash(path, |SNDIR| + 1, at);
      }
      assert path[|SNDIR|..at] == id;
    }
  }

  // ---------------------------------------------------------------- lock labels

  const WORD: nat := 0x1_0000_0000_0000_0000

  function Pow33(n: nat): nat {
    if n == 0 then 1 else 33 * Pow33(n - 1)
  }

  /** The characters, as bytes, taken as the coefficients of a polynomial at 33, the first one leading. */
  function Polynomial(s: string): nat {
    if s == [] then 0 else s[0] as nat % 256 * Pow33(|s| - 1) + Polynomial(s[1..])
  }

  function Repeated(s: string, n: nat): (r: string)
    ensures |r| == n * |s|
  {
    if n == 0 then [] else Repeated(s, n - 1) + s
  }

  /** The hash of a string: the polynomial with the leading coefficient 5381 and then the string five times over, in
      64-bit arithmetic. */
  function Hash(s: string): nat {
    (5381 * Pow33(5 * |s|) + Polynomial(Repeated(s, 5))) % WORD
  }

  /** One more character multiplies all that came before by 33. */
  lemma {:induction false} PolynomialAppend(s: string, c: char)
    ensures Polynomial(s + [c]) == 33 * Polynomial(s) + c as nat % 256
  {
    if s == [] {
      assert (s + [c])[1..] == [];
    } else {
      PolynomialAppend(s[1..], c);
      assert (s + [c])[1..] == s[1..] + [c];
      var x, power := s[0] as nat % 256, Pow33(|s| - 1);
      assert x * (33 * power) == 33 * (x * power);
    }
  }

  /** Wrapping around before a step changes nothing that is left after it. */
  lemma WrapsAround(value: nat, c: nat)
    ensures ((value % WORD) * 32 % WORD + value % WORD + c) % WORD == (33 * value + c) % WORD
  {
    var q, r := value / WORD, value % WORD;
    assert 33 * value + c == 33 * r + c + WORD * (33 * q);
    assert r * 32 == r * 32 % WORD + WORD * (r * 32 / WORD);
    Multiples(33 * r + c, 33 * q);
    Multiples(r * 32 % WORD + r + c, r * 32 / WORD);
  }

  lemma {:induction false} Multiples(x: nat, n: nat)
    ensures (x + WORD * n) % WORD == x % WORD
    decreases n
  {
    if n > 0 {
      Multiples(x, n - 1);
      assert x + WORD * n == (x + WORD * (n - 1)) + WORD;
    }
  }

  /** What the hash is after the string has been gone over `i` times and then as far as `prefix`. */
  ghost predicate HashedSoFar(key: nat, s: string, i: nat, prefix: string) {
    key == (5381 * Pow33(|Repeated(s, i) + prefix|) + Polynomial(Repeated(s, i) + prefix)) % WORD
  }

  lemma HashStep(key: nat, s: string, i: nat, prefix: string, c: char)
    requires HashedSoFar(key, s, i, prefix)
    ensures HashedSoFar((key * 32 % WORD + key + c as nat % 256) % WORD, s, i, prefix + [c])
  {
    var done := Repeated(s, i) + prefix;
    assert Repeated(s, i) + (prefix + [c]) == done + [c];
    PolynomialAppend(done, c);
    WrapsAround(5381 * Pow33(|done|) + Polynomial(done), c as nat % 256);
  }

  lemma HashRound(key: nat, s: string, i: nat)
    requires HashedSoFar(key, s, i, s)
    ensures HashedSoFar(key, s, i + 1, [])
  {
    assert Repeated(s, i + 1) + [] == Repeated(s, i) + s;
  }

  lemma HashDone(key: nat, s: string)
    requires HashedSoFar(key, s, 5, [])
    ensures key == Hash(s)
  {
    assert Repeated(s, 5) + [] == Repeated(s, 5);
  }

  /** One pass over the string. */
  method HashPass(start: nat, s: string, ghost i: nat) returns (key: nat)
    requires HashedSoFar(start, s, i, [])
    ensures HashedSoFar(key, s, i, s)
  {
    key := start;
    assert s[..0] == [];
    for j := 0 to |s|
      invariant HashedSoFar(key, s, i, s[..j])
    {
      HashStep(key, s, i, s[..j], s[j]);
      assert s[..j + 1] == s[..j] + [s[j]];
      key := (key * 32 % WORD + key + s[j] as nat % 256) % WORD;
    }
    assert s[..|s|] == s;
  }

  /** The hash goes over the string five times, in 64-bit arithmetic. */
  method Djb2(s: string) returns (key: nat)
    ensures key == Hash(s)
  {
    key := 5381;
    for i := 0 to 5
      invariant HashedSoFar(key, s, i, [])
    {
      key := HashPass(key, s, i);
      HashRound(key, s, i);
    }
    HashDone(key, s);
  }

  /** A label for a real path. 0 means that a lock is not in use, so it is never a label. */
  method LockLabel(path: string) returns (r: nat)
    ensures r == LabelOf(path)
  {
    var key := Djb2(path);
    r := if key != 0 then key else 1;
  }

  function LabelOf(path: string): (r: nat)
    ensures 0 < r < WORD
  {
    if Hash(path) != 0 then Hash(path) else 1
  }

  /** The main file behind a path in a snapshot, as the steps of a snapshot handle name it. */
  function MainBehind(root: string, path: string): string
    requires InSnapshots(path) && Decompose(path).Full?
  {
    root + Decompose(path).inpath
  }

  /** A reader of a file in any snapshot and a writer of the main file use the same lock label. */
  lemma SharedLabel(root: string, id: string, vpath: string)
    requires IsId(id) && IsInPath(vpath)
    ensures var path := SNDIR + id + vpath;
            && InSnapshots(path) && Decompose(path).Full? && MainBehind(root, path) == root + vpath
            && LabelOf(MainBehind(root, path)) == LabelOf(root + vpath) != 0
  {
    var path := SNDIR + id + vpath;
    assert path[|SNDIR|] == id[0];
    assert InSnapshots(path);
    FullIffRebuilds(path, id, vpath);
  }
}
