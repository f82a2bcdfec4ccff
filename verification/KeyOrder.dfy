/** The order in which storage iterates over the state keys of an account: the order of their bytes. Within an
    account a key is told apart by its path, which is stored behind its own length. */
module KeyOrder {
  type Byte = x: nat | x < 256
  type Bytes = seq<Byte>

  /** Lexicographic order; a proper prefix comes first. */
  predicate LexLess(a: Bytes, b: Bytes) {
    b != [] && (a == [] || a[0] < b[0] || (a[0] == b[0] && LexLess(a[1..], b[1..])))
  }

  /** Lengths are written seven bits at a time, low bits first, with the top bit set on all bytes but the last. */
  function Uleb(n: nat): (r: Bytes)
    ensures r != []
  {
    if n < 128 then [n] else [128 + n % 128] + Uleb(n / 128)
  }

  function Encode(path: Bytes): Bytes {
    Uleb(|path|) + path
  }

  predicate Before(a: Bytes, b: Bytes) {
    LexLess(Encode(a), Encode(b))
  }

  lemma {:induction false} LexTransitive(a: Bytes, b: Bytes, c: Bytes)
    requires LexLess(a, b) && LexLess(b, c)
    ensures LexLess(a, c)
  {
    if a != [] && a[0] == b[0] == c[0] {
      LexTransitive(a[1..], b[1..], c[1..]);
    }
  }

  lemma {:induction false} LexIrreflexive(a: Bytes)
    ensures !LexLess(a, a)
  {
    if a != [] { LexIrreflexive(a[1..]); }
  }

  /** A common beginning does not matter. */
  lemma {:induction false} LexCancel(u: Bytes, a: Bytes, b: Bytes)
    ensures LexLess(u + a, u + b) <==> LexLess(a, b)
  {
    if u == [] {
      assert u + a == a && u + b == b;
    } else {
      LexCancel(u[1..], a, b);
      assert (u + a)[1..] == u[1..] + a && (u + b)[1..] == u[1..] + b;
    }
  }

  /** If neither beginning is a prefix of the other, what follows does not matter. */
  lemma {:induction false} LexDecided(a: Bytes, x: Bytes, b: Bytes, y: Bytes)
    requires !(a <= b) && !(b <= a)
    ensures LexLess(a + x, b + y) <==> LexLess(a, b)
  {
    if a[0] == b[0] {
      assert a == [a[0]] + a[1..] && b == [b[0]] + b[1..];
      LexDecided(a[1..], x, b[1..], y);
      assert (a + x)[1..] == a[1..] + x && (b + y)[1..] == b[1..] + y;
    }
  }

  /** The number that seven-bit groups, low ones first, stand for. */
  ghost function UlebValue(bytes: Bytes): nat {
    if bytes == [] then 0 else bytes[0] % 128 + 128 * UlebValue(bytes[1..])
  }

  /** A length is read back from what is written, and exactly the last byte has its top bit clear. */
  lemma {:induction false} UlebReads(n: nat)
    ensures UlebValue(Uleb(n)) == n
    ensures forall i :: 0 <= i < |Uleb(n)| ==> (Uleb(n)[i] < 128 <==> i == |Uleb(n)| - 1)
  {
    if n >= 128 {
      UlebReads(n / 128);
      assert Uleb(n)[1..] == Uleb(n / 128);
      assert forall i :: 0 < i < |Uleb(n)| ==> Uleb(n)[i] == Uleb(n / 128)[i - 1];
    } else {
      assert Uleb(n)[1..] == [];
    }
  }

  /** No written length is the beginning of another. */
  lemma {:induction false} UlebPrefixFree(m: nat, n: nat)
    requires Uleb(m) <= Uleb(n)
    ensures m == n
  {
    assert Uleb(m)[0] == Uleb(n)[0];
    if m >= 128 && n >= 128 {
      assert Uleb(m)[1..] == Uleb(m / 128) && Uleb(n)[1..] == Uleb(n / 128);
      UlebPrefixFree(m / 128, n / 128);
    }
  }

  lemma BeforeTransitive(a: Bytes, b: Bytes, c: Bytes)
    requires Before(a, b) && Before(b, c)
    ensures Before(a, c)
  {
    LexTransitive(Encode(a), Encode(b), Encode(c));
  }

  lemma BeforeAsymmetric(a: Bytes, b: Bytes)
    requires Before(a, b)
    ensures !Before(b, a) && a != b
  {
    LexIrreflexive(Encode(a));
    if Before(b, a) { BeforeTransitive(a, b, a); }
  }

  /** Paths of one length are ordered by their bytes; paths of different lengths by their lengths as written,
      whatever the bytes are. */
  lemma BeforeByLength(a: Bytes, b: Bytes)
    ensures Before(a, b) <==> if |a| == |b| then LexLess(a, b) else LexLess(Uleb(|a|), Uleb(|b|))
  {
    if |a| == |b| {
      LexCancel(Uleb(|a|), a, b);
    } else {
      if Uleb(|a|) <= Uleb(|b|) { UlebPrefixFree(|a|, |b|); }
      if Uleb(|b|) <= Uleb(|a|) { UlebPrefixFree(|b|, |a|); }
      LexDecided(Uleb(|a|), a, Uleb(|b|), b);
    }
  }

  /** Storage appends a version to every key; that never changes the order of different keys. */
  lemma VersionsDoNotMatter(a: Bytes, x: Bytes, b: Bytes, y: Bytes)
    requires a != b
    ensures LexLess(Encode(a) + x, Encode(b) + y) <==> Before(a, b)
  {
    if Encode(a) <= Encode(b) { PrefixFree(a, b); }
    if Encode(b) <= Encode(a) { PrefixFree(b, a); }
    LexDecided(Encode(a), x, Encode(b), y);
  }

  lemma PrefixFree(a: Bytes, b: Bytes)
    requires Encode(a) <= Encode(b)
    ensures a == b
  {
    var u, v := Uleb(|a|), Uleb(|b|);
    assert if |u| <= |v| then u <= v else v <= u by {
      assert forall i :: 0 <= i < |u| ==> u[i] == Encode(a)[i] == Encode(b)[i];
      assert forall i :: 0 <= i < |v| ==> v[i] == Encode(b)[i];
    }
    if |u| <= |v| { UlebPrefixFree(|a|, |b|); } else { UlebPrefixFree(|b|, |a|); }
    assert Encode(a)[|u|..] == a && Encode(b)[|v|..] == b;
  }
}
