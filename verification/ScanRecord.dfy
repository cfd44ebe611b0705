/** The advertising-data walk of service/low_energy_scanner.cc.  A scan record is a
    sequence of length-prefixed fields, zero padded to 62 bytes (section 11 of Volume 3,
    Part C of the Bluetooth Core Specification).  The vector that is walked may have any
    length. */
module ScanRecord {
  import opened Octets
  import opened Optional

  const SCAN_RECORD_LENGTH: nat := 62

  /** A field that a record can hold: at least one byte, at most what a length byte says. */
  predicate IsField(f: seq<Byte>) {
    0 < |f| < 256
  }

  ghost predicate AreFields(fields: seq<seq<Byte>>) {
    forall i :: 0 <= i < |fields| ==> IsField(fields[i])
  }

  ghost function EncodeField(f: seq<Byte>): seq<Byte>
    requires IsField(f)
  {
    [|f|] + f
  }

  ghost function Encode(fields: seq<seq<Byte>>): seq<Byte>
    requires AreFields(fields)
  {
    if fields == [] then [] else EncodeField(fields[0]) + Encode(fields[1..])
  }

  /** The first n bytes split exactly into the given fields. */
  ghost predicate SplitsAs(bytes: seq<Byte>, n: nat, fields: seq<seq<Byte>>) {
    n <= |bytes| && AreFields(fields) && Encode(fields) == bytes[..n]
  }

  // ----- The four ways a walk can go, by the bytes alone -----

  /** n is where the record ends: whole fields up to n, then a zero length byte or the end. */
  ghost predicate EndsAt(bytes: seq<Byte>, n: nat, fields: seq<seq<Byte>>) {
    && n <= SCAN_RECORD_LENGTH
    && SplitsAs(bytes, n, fields)
    && (n == SCAN_RECORD_LENGTH || (n < |bytes| && bytes[n] == 0))
  }

  /** After the given fields comes a length byte that runs past the 62 bytes. */
  ghost predicate OverrunsAt(bytes: seq<Byte>, n: nat, fields: seq<seq<Byte>>) {
    && SplitsAs(bytes, n, fields)
    && n < SCAN_RECORD_LENGTH && n < |bytes|
    && bytes[n] > 0 && n + bytes[n] >= SCAN_RECORD_LENGTH
  }

  /** The vector is shorter than 62 bytes and has no zero length byte: it ends with the given
      fields, or the next field runs past its end and stops before the last of the 62 bytes. */
  ghost predicate LeavesAt(bytes: seq<Byte>, n: nat, fields: seq<seq<Byte>>) {
    && SplitsAs(bytes, n, fields)
    && |bytes| < SCAN_RECORD_LENGTH
    && (n == |bytes| || (bytes[n] > 0 && |bytes| <= n + bytes[n] < SCAN_RECORD_LENGTH - 1))
  }

  /** The vector is shorter than 62 bytes, and the field after the given ones runs past its
      end up to exactly 62. */
  ghost predicate TruncatedAt(bytes: seq<Byte>, n: nat, fields: seq<seq<Byte>>) {
    && SplitsAs(bytes, n, fields)
    && n < |bytes| < SCAN_RECORD_LENGTH
    && n + bytes[n] == SCAN_RECORD_LENGTH - 1
  }

  lemma {:induction false} EncodeSnoc(fields: seq<seq<Byte>>, f: seq<Byte>)
    requires AreFields(fields) && IsField(f)
    ensures Encode(fields + [f]) == Encode(fields) + EncodeField(f)
  {
    if fields == [] {
      assert fields + [f] == [f];
      assert Encode([f][1..]) == [];
    } else {
      EncodeSnoc(fields[1..], f);
      assert (fields + [f])[0] == fields[0] && (fields + [f])[1..] == fields[1..] + [f];
      assert Encode(fields + [f]) == EncodeField(fields[0]) + (Encode(fields[1..]) + EncodeField(f));
    }
  }

  /** The length prefixes make the split unique: of two splits of prefixes of the same
      bytes, one extends the other, and a longer one starts its extra field on a
      non-zero length byte that stays inside it. */
  lemma {:induction false} PrefixUnique(bytes: seq<Byte>, m: nat, fs: seq<seq<Byte>>, n: nat, gs: seq<seq<Byte>>)
    requires SplitsAs(bytes, m, fs) && SplitsAs(bytes, n, gs) && m <= n
    ensures fs <= gs
    ensures m < n ==> 0 < bytes[m] && m + bytes[m] < n
    ensures m == n ==> fs == gs
    decreases |fs|
  {
    if fs == [] {
      if gs != [] {
        assert Encode(gs)[0] == |gs[0]|;
      }
    } else {
      assert Encode(fs)[0] == |fs[0]|;
      assert gs != [] && Encode(gs)[0] == |gs[0]|;
      var k := 1 + |fs[0]|;
      HeadField(bytes, m, fs);
      HeadField(bytes, n, gs);
      PrefixUnique(bytes[k..], m - k, fs[1..], n - k, gs[1..]);
      assert gs == [gs[0]] + gs[1..] && fs == [fs[0]] + fs[1..];
    }
  }

  lemma HeadField(bytes: seq<Byte>, n: nat, fs: seq<seq<Byte>>)
    requires SplitsAs(bytes, n, fs) && fs != []
    ensures var k := 1 + |fs[0]|; k <= n && fs[0] == bytes[1..k] && SplitsAs(bytes[k..], n - k, fs[1..])
  {
    var k := 1 + |fs[0]|;
    var e := Encode(fs);
    assert e == EncodeField(fs[0]) + Encode(fs[1..]);
    assert e[..k] == EncodeField(fs[0]) && e[k..] == Encode(fs[1..]);
    assert EncodeField(fs[0])[1..] == fs[0];
    assert bytes[..n][k..] == bytes[k..][..n - k];
    assert bytes[..n][..k][1..] == bytes[1..k];
  }

  ghost predicate StopsAt(bytes: seq<Byte>, n: nat, fields: seq<seq<Byte>>) {
    || EndsAt(bytes, n, fields) || OverrunsAt(bytes, n, fields)
    || LeavesAt(bytes, n, fields) || TruncatedAt(bytes, n, fields)
  }

  /** A vector has one of the four shapes at most, in one place, with one list of fields. */
  lemma StopUnique(bytes: seq<Byte>, m: nat, fs: seq<seq<Byte>>, n: nat, gs: seq<seq<Byte>>)
    requires StopsAt(bytes, m, fs) && StopsAt(bytes, n, gs)
    ensures m == n && fs == gs
  {
    if m <= n {
      PrefixUnique(bytes, m, fs, n, gs);
    } else {
      PrefixUnique(bytes, n, gs, m, fs);
    }
  }

  /** The record ends in one place only, and a record that ends never aborts the walk, takes
      it out of the vector or is truncated. */
  lemma EndUnique(bytes: seq<Byte>, m: nat, fs: seq<seq<Byte>>, n: nat, gs: seq<seq<Byte>>)
    requires EndsAt(bytes, m, fs)
    ensures EndsAt(bytes, n, gs) ==> m == n && fs == gs
    ensures !OverrunsAt(bytes, n, gs) && !LeavesAt(bytes, n, gs) && !TruncatedAt(bytes, n, gs)
  {
    if StopsAt(bytes, n, gs) {
      StopUnique(bytes, m, fs, n, gs);
    }
  }

  // ----- The walk -----

  /** What GetScanRecordLength does: return a length, abort at its CHECK, or read a byte past
      the end of the vector. */
  datatype Walk = Length(n: nat) | Aborts | ReadsPastEnd

  ghost predicate Ends(bytes: seq<Byte>, n: nat) {
    exists fields :: EndsAt(bytes, n, fields)
  }

  ghost predicate Overruns(bytes: seq<Byte>) {
    exists n: nat, fields :: OverrunsAt(bytes, n, fields)
  }

  ghost predicate Leaves(bytes: seq<Byte>) {
    exists n: nat, fields :: LeavesAt(bytes, n, fields)
  }

  ghost predicate Truncated(bytes: seq<Byte>) {
    exists n: nat, fields :: TruncatedAt(bytes, n, fields)
  }

  /** The outcome of the walk, and exactly the shape of the bytes that goes with it. */
  ghost predicate Explains(bytes: seq<Byte>, r: Walk) {
    && (r.Length? && r.n <= |bytes| ==> Ends(bytes, r.n))
    && ((r.Length? && r.n <= |bytes|) <==> exists n: nat :: Ends(bytes, n))
    && (r.Aborts? <==> Overruns(bytes))
    && (r.ReadsPastEnd? <==> Leaves(bytes))
    && ((r.Length? && r.n > |bytes|) <==> Truncated(bytes))
    && (r.Length? && r.n > |bytes| ==> r.n == SCAN_RECORD_LENGTH)
  }

  /** The shape found where the walk stopped is the only one, so it decides everything. */
  lemma ShapeDecides(bytes: seq<Byte>, n: nat, fields: seq<seq<Byte>>)
    requires StopsAt(bytes, n, fields)
    ensures (exists m: nat :: Ends(bytes, m)) <==> EndsAt(bytes, n, fields)
    ensures Overruns(bytes) <==> OverrunsAt(bytes, n, fields)
    ensures Leaves(bytes) <==> LeavesAt(bytes, n, fields)
    ensures Truncated(bytes) <==> TruncatedAt(bytes, n, fields)
    ensures EndsAt(bytes, n, fields) ==> Ends(bytes, n)
  {
    forall m: nat, fs | StopsAt(bytes, m, fs) ensures m == n && fs == fields {
      StopUnique(bytes, n, fields, m, fs);
    }
    if EndsAt(bytes, n, fields) {
      assert Ends(bytes, n);
    }
    if m: nat :| Ends(bytes, m) {
      var fs :| EndsAt(bytes, m, fs);
      assert StopsAt(bytes, m, fs);
    }
    if m: nat, fs :| OverrunsAt(bytes, m, fs) {
      assert StopsAt(bytes, m, fs);
    }
    if m: nat, fs :| LeavesAt(bytes, m, fs) {
      assert StopsAt(bytes, m, fs);
    }
    if m: nat, fs :| TruncatedAt(bytes, m, fs) {
      assert StopsAt(bytes, m, fs);
    }
  }

  /** GetScanRecordLength, on a vector of any length.  A length inside the vector is returned
      if and only if the record ends there; the other outcomes are decided just as exactly. */
  method GetScanRecordLength(bytes: seq<Byte>) returns (r: Walk)
    ensures Explains(bytes, r)
  {
    var i, fieldLen := 0, 0;
    ghost var n: nat := 0;
    ghost var fields: seq<seq<Byte>> := [];
    while i < SCAN_RECORD_LENGTH
      invariant i <= SCAN_RECORD_LENGTH
      invariant SplitsAs(bytes, n, fields)
      invariant if i <= |bytes| then n == i
                else n < |bytes| && |bytes| <= n + bytes[n] && i == n + bytes[n] + 1
      decreases SCAN_RECORD_LENGTH - i
    {
      if i >= |bytes| {
        assert LeavesAt(bytes, n, fields);
        r := ReadsPastEnd;
        ShapeDecides(bytes, n, fields);
        return;
      }
      fieldLen := bytes[i];
      if !(i + fieldLen < SCAN_RECORD_LENGTH) {
        assert OverrunsAt(bytes, n, fields);
        r := Aborts;
        ShapeDecides(bytes, n, fields);
        return;
      }
      if fieldLen == 0 {
        assert EndsAt(bytes, n, fields);
        r := Length(i);
        ShapeDecides(bytes, n, fields);
        return;
      }
      if i + fieldLen < |bytes| {
        n, fields := OneMore(bytes, n, fields);
      }
      i := i + (fieldLen + 1);
    }
    assert StopsAt(bytes, n, fields);
    r := Length(SCAN_RECORD_LENGTH);
    ShapeDecides(bytes, n, fields);
  }

  /** A whole field more. */
  lemma OneMore(bytes: seq<Byte>, n: nat, fields: seq<seq<Byte>>)
    returns (m: nat, more: seq<seq<Byte>>)
    requires SplitsAs(bytes, n, fields) && n < |bytes| && bytes[n] > 0 && n + bytes[n] < |bytes|
    ensures m == n + bytes[n] + 1 && SplitsAs(bytes, m, more)
  {
    m := n + bytes[n] + 1;
    var f := bytes[n + 1..m];
    EncodeSnoc(fields, f);
    assert bytes[..m] == bytes[..n] + ([bytes[n]] + f);
    more := fields + [f];
  }

  /** ScanResultCallback's copy of the record; None when the walk aborts, or the walk or the
      copy leaves the vector. */
  method CopyRecord(advData: seq<Byte>) returns (scanRecord: Option<seq<Byte>>)
    ensures scanRecord.Some? <==> exists n: nat :: Ends(advData, n)
    ensures scanRecord.Some? ==> exists fields :: EndsAt(advData, |scanRecord.value|, fields)
                                                  && scanRecord.value == Encode(fields)
  {
    var recordLength := GetScanRecordLength(advData);
    if recordLength.Length? && recordLength.n <= |advData| {
      ghost var fields :| EndsAt(advData, recordLength.n, fields);
      return Some(advData[..recordLength.n]);
    }
    return None;
  }

  function Zeros(n: nat): (z: seq<Byte>)
    ensures |z| == n && forall i :: 0 <= i < n ==> z[i] == 0
  {
    seq(n, i => 0)
  }

  /** Round trip: any fields that fit, encoded and followed by some zeros, come back exactly
      if and only if there is a zero to stop at or they fill the 62 bytes. */
  method ScanResultOf(ghost fields: seq<seq<Byte>>, ghost padding: nat, advData: seq<Byte>)
    returns (scanRecord: Option<seq<Byte>>)
    requires AreFields(fields) && |Encode(fields)| <= SCAN_RECORD_LENGTH
    requires advData == Encode(fields) + Zeros(padding)
    ensures scanRecord == Some(Encode(fields)) <==> padding > 0 || |Encode(fields)| == SCAN_RECORD_LENGTH
  {
    scanRecord := CopyRecord(advData);
    ghost var n := |Encode(fields)|;
    assert advData[..n] == Encode(fields);
    if padding > 0 || n == SCAN_RECORD_LENGTH {
      assert EndsAt(advData, n, fields) && Ends(advData, n);
      ghost var gs :| EndsAt(advData, |scanRecord.value|, gs) && scanRecord.value == Encode(gs);
      EndUnique(advData, n, fields, |scanRecord.value|, gs);
    } else {
      UnpaddedLeaves(advData, fields);
      ShapeDecides(advData, n, fields);
    }
  }

  /** Whole fields that are not padded and do not fill the 62 bytes: the walk reads past them. */
  lemma UnpaddedLeaves(bytes: seq<Byte>, fields: seq<seq<Byte>>)
    requires AreFields(fields) && bytes == Encode(fields) && |bytes| < SCAN_RECORD_LENGTH
    ensures LeavesAt(bytes, |bytes|, fields)
  {
    assert bytes[..|bytes|] == bytes;
  }

  /** A record of one field, the flags, delivered without padding takes the walk out of it. */
  lemma FlagsOnlyLeaves(bytes: seq<Byte>)
    requires bytes == [2, 1, 6]
    ensures LeavesAt(bytes, 3, [[1, 6]])
  {
    var fields: seq<seq<Byte>> := [[1, 6]];
    assert fields[1..] == [];
    assert Encode(fields) == EncodeField(fields[0]) + Encode(fields[1..]);
    assert Encode(fields) == bytes;
    UnpaddedLeaves(bytes, fields);
  }

  /** A length byte that promises exactly 62 bytes makes the walk return more than there is. */
  lemma PromisedLengthTruncated(bytes: seq<Byte>)
    requires bytes == [61]
    ensures TruncatedAt(bytes, 0, [])
  {
  }
}
