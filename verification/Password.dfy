/** The comparison of two digests without an early exit. */
module Password {
  import opened Base64Url
  import opened Words

  /** The loop accumulates every difference and looks at the result once; what it decides is
      plain equality, of contents and of lengths. */
  method ConstantTimeEquals(a: bytes, b: bytes) returns (equal: bool)
    ensures equal <==> a == b
  {
    var maxLen := if |a| > |b| then |a| else |b|;
    var diff: Word := if |a| == |b| then 0 else 1;
    for i := 0 to maxLen
      invariant diff == 0 <==> |a| == |b| && forall j :: 0 <= j < i && j < |a| ==> a[j] == b[j]
    {
      var ca: Word := if i < |a| then a[i] else 0;
      var cb: Word := if i < |b| then b[i] else 0;
      OrXorZero(diff, ca, cb);
      diff := Or(diff, Xor(ca, cb));
    }
    equal := diff == 0;
  }
}
