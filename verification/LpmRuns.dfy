/**
 Whole runs over the tries: any sequence of range inserts behaves as "the last insert that covers a
 key wins", and the 16-bit trie answers like the 8-bit one on every even key size.
 */
module LpmRuns {
  import opened Keys
  import opened Trie
  import opened Cursor
  import opened RangeTrie

  datatype Range = Range(from: Key, to: Key, value: nat)

  ghost predicate IsRange(b: nat, n: nat, r: Range) {
    IsKey(b, n, r.from) && IsKey(b, n, r.to) && Val(b, r.from) <= Val(b, r.to) && r.value < 0x8000_0000
  }

  ghost predicate AllRanges(b: nat, n: nat, rs: seq<Range>) {
    forall i | 0 <= i < |rs| :: IsRange(b, n, rs[i])
  }

  /** The value of the last range that covers `k`, or the invalid value if none does. */
  ghost function LastWriter(b: nat, rs: seq<Range>, k: Key): nat {
    if rs == [] then VALUE_INVALID else
      var r := rs[|rs| - 1];
      if InRange(b, r.from, r.to, k) then r.value else LastWriter(b, rs[..|rs| - 1], k)
  }

  /** Every key of the trie reads the value of its last writer. */
  ghost predicate Written(t: Pool, rs: seq<Range>)
    requires t.Wf()
  {
    forall k {:trigger LastWriter(t.b, rs, k)} | IsKey(t.b, t.n, k) :: ValueGet(t.Raw(k)) == LastWriter(t.b, rs, k)
  }

  lemma {:induction false} PaintedWrites(t: Pool, t': Pool, rs: seq<Range>, i: nat)
    requires t.Wf() && t'.Wf() && t.b == t'.b && t.n == t'.n && i < |rs| && IsRange(t.b, t.n, rs[i])
    requires Written(t, rs[..i]) && Painted(t, t', rs[i].from, rs[i].to, ValueSet(rs[i].value))
    ensures Written(t', rs[..i + 1])
  {
    assert rs[..i + 1][..i] == rs[..i];
    ValueRoundTrip(rs[i].value);
    forall k | IsKey(t'.b, t'.n, k)
      ensures ValueGet(t'.Raw(k)) == LastWriter(t'.b, rs[..i + 1], k)
    {
      assert ValueGet(t.Raw(k)) == LastWriter(t.b, rs[..i], k);
    }
  }

  /** A run of inserts into an empty trie. */
  method InsertAll(lpm: Lpm, rs: seq<Range>) returns (ok: bool)
    requires lpm.Valid() && AllRanges(lpm.b, lpm.n, rs)
    requires forall k | IsKey(lpm.b, lpm.n, k) :: lpm.Value(k) == VALUE_INVALID
    modifies lpm`pages, lpm`path, lpm`chunksLeft
    ensures lpm.Valid() && (!ok ==> lpm.chunksLeft == 0)
    ensures ok ==> forall k | IsKey(lpm.b, lpm.n, k) :: lpm.Value(k) == LastWriter(lpm.b, rs, k)
  {
    var i := 0;
    while i < |rs|
      invariant 0 <= i <= |rs| && lpm.Valid() && Written(lpm.T(), rs[..i])
    {
      ghost var t := lpm.T();
      ghost var stop;
      ok, stop := lpm.Insert(rs[i].from, rs[i].to, rs[i].value);
      if !ok {
        return;
      }
      PaintedWrites(t, lpm.T(), rs, i);
      i := i + 1;
    }
    assert rs[..i] == rs;
    return true;
  }

  /** lpm_wide_key_from_be: two bytes to a word, most significant first. */
  ghost function Words(k: Key): Key {
    seq(|k| / 2, i requires 0 <= i < |k| / 2 => k[2 * i] * 256 + k[2 * i + 1])
  }

  lemma {:induction false} WordsKeepValue(k: Key)
    requires |k| % 2 == 0 && IsKey(256, |k|, k)
    ensures IsKey(65536, |k| / 2, Words(k)) && Val(65536, Words(k)) == Val(256, k)
    decreases |k|
  {
    if |k| > 0 {
      var m := |k| - 2;
      WordsKeepValue(k[..m]);
      assert Words(k)[..m / 2] == Words(k[..m]);
      ValStep(256, k, m);
      ValStep(256, k, m + 1);
      assert k[..m + 2] == k;
    }
  }

  method KeyFromBe(key: Key) returns (words: Key)
    requires |key| % 2 == 0 && IsKey(256, |key|, key)
    ensures words == Words(key) && Val(65536, words) == Val(256, key)
  {
    words := [];
    var i := 0;
    while i < |key| / 2
      invariant 0 <= i <= |key| / 2 && words == Words(key)[..i]
    {
      words := words + [key[i * 2] * 256 + key[i * 2 + 1]];
      i := i + 1;
    }
    WordsKeepValue(key);
  }

  ghost function WideRanges(rs: seq<Range>): seq<Range> {
    seq(|rs|, i requires 0 <= i < |rs| => Range(Words(rs[i].from), Words(rs[i].to), rs[i].value))
  }

  /** The wide trie answers like the byte trie after the same run of inserts. */
  lemma {:induction false} WideAgrees(n: nat, rs: seq<Range>, k: Key)
    requires n % 2 == 0 && IsKey(256, n, k) && AllRanges(256, n, rs)
    ensures LastWriter(65536, WideRanges(rs), Words(k)) == LastWriter(256, rs, k)
    decreases |rs|
  {
    if rs != [] {
      var m := |rs| - 1;
      assert WideRanges(rs)[..m] == WideRanges(rs[..m]);
      WordsKeepValue(k);
      WordsKeepValue(rs[m].from);
      WordsKeepValue(rs[m].to);
      WideAgrees(n, rs[..m], k);
    }
  }

  method ToWide(n: nat, rs: seq<Range>) returns (wrs: seq<Range>)
    requires n % 2 == 0 && AllRanges(256, n, rs)
    ensures wrs == WideRanges(rs) && AllRanges(65536, n / 2, wrs)
  {
    wrs := [];
    var i := 0;
    while i < |rs|
      invariant 0 <= i <= |rs| && wrs == WideRanges(rs)[..i] && AllRanges(65536, n / 2, wrs)
    {
      var from := KeyFromBe(rs[i].from);
      var to := KeyFromBe(rs[i].to);
      WordsKeepValue(rs[i].from);
      WordsKeepValue(rs[i].to);
      wrs := wrs + [Range(from, to, rs[i].value)];
      i := i + 1;
    }
  }

  /** The same inserts into a byte trie and a wide trie. */
  method InsertBoth(n: nat, chunks: nat, wideChunks: nat, rs: seq<Range>) returns (ok: bool, lpm: Lpm, wide: Lpm)
    requires n >= 2 && n % 2 == 0 && chunks >= 1 && wideChunks >= 1 && AllRanges(256, n, rs)
    ensures lpm.Valid() && lpm.b == 256 && lpm.n == n && wide.Valid() && wide.b == 65536 && wide.n == n / 2
    ensures !ok ==> lpm.chunksLeft == 0 || wide.chunksLeft == 0
    ensures ok ==> forall k | IsKey(256, n, k) ::
              IsKey(65536, n / 2, Words(k)) && lpm.Value(k) == wide.Value(Words(k)) == LastWriter(256, rs, k)
  {
    var wrs := ToWide(n, rs);
    lpm := new Lpm(false, n, chunks);
    ok := InsertAll(lpm, rs);
    wide := new Lpm(true, n / 2, wideChunks);
    if ok {
      ok := InsertAll(wide, wrs);
      forall k | IsKey(256, n, k) && ok
        ensures IsKey(65536, n / 2, Words(k)) && lpm.Value(k) == wide.Value(Words(k))
      {
        WordsKeepValue(k);
        WideAgrees(n, rs, k);
      }
    }
  }
}
