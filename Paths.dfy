/** URL and resource-path building of the REST client (glide.py:66-67 and the
    paths used at glide.py:135, 173, 195 and 214). */
module Paths {

  /** `url(path)`: host, then the optional path root, then the resource path. */
  function Url(host: string, root: string, path: string): (u: string)
    ensures root == "" ==> u == host + "/" + path
    ensures root != "" ==> u == host + "/" + root + "/" + path
  {
    host + "/" + (if root != "" then root + "/" else "") + path
  }

  /** The part of a URL that comes before the resource path. */
  function UrlPrefix(host: string, root: string): string {
    host + "/" + (if root != "" then root + "/" else "")
  }

  /** Two URLs built on the same host and root are equal only for equal paths:
      the resource path is recovered from the URL. */
  lemma UrlDeterminesPath(host: string, root: string, p: string, q: string)
    requires Url(host, root, p) == Url(host, root, q)
    ensures p == q
  {
    var pre := UrlPrefix(host, root);
    assert Url(host, root, p) == pre + p;
    assert Url(host, root, q) == pre + q;
    assert p == (pre + p)[|pre|..];
    assert q == (pre + q)[|pre|..];
  }

  predicate IsDigit(c: char) {
    '0' <= c <= '9'
  }

  function DigitChar(d: nat): (c: char)
    requires d < 10
    ensures IsDigit(c)
  {
    (('0' as int) + d) as char
  }

  function DigitValue(c: char): (d: nat)
    requires IsDigit(c)
    ensures d < 10
  {
    (c as int) - ('0' as int)
  }

  /** Python's `str(n)` for a non-negative integer: its decimal digits. */
  function NatToDecimal(n: nat): (s: string)
    ensures |s| >= 1
    ensures forall i :: 0 <= i < |s| ==> IsDigit(s[i])
    decreases n
  {
    if n < 10 then [DigitChar(n)] else NatToDecimal(n / 10) + [DigitChar(n % 10)]
  }

  /** The value of a string of decimal digits. */
  function DecimalToNat(s: string): nat
    requires forall i :: 0 <= i < |s| ==> IsDigit(s[i])
  {
    if s == [] then 0 else DecimalToNat(s[..|s| - 1]) * 10 + DigitValue(s[|s| - 1])
  }

  /** Reading back the digits of a serial gives the serial. */
  lemma {:induction false} DecimalRoundTrip(n: nat)
    ensures DecimalToNat(NatToDecimal(n)) == n
    decreases n
  {
    var s := NatToDecimal(n);
    if n < 10 {
      assert s[..|s| - 1] == [];
    } else {
      DecimalRoundTrip(n / 10);
      assert s[..|s| - 1] == NatToDecimal(n / 10);
    }
  }

  /** `stashes/{stash_id}/{serial}` (glide.py:135). */
  function StashPath(stashId: string, serial: nat): string {
    "stashes/" + stashId + "/" + NatToDecimal(serial)
  }

  /** Distinct serials address distinct stash chunks: no chunk written under one
      serial can be overwritten by a chunk written under another. */
  lemma StashPathInjective(stashId: string, a: nat, b: nat)
    requires StashPath(stashId, a) == StashPath(stashId, b)
    ensures a == b
  {
    var pre := "stashes/" + stashId + "/";
    assert StashPath(stashId, a) == pre + NatToDecimal(a);
    assert StashPath(stashId, b) == pre + NatToDecimal(b);
    assert NatToDecimal(a) == (pre + NatToDecimal(a))[|pre|..];
    assert NatToDecimal(b) == (pre + NatToDecimal(b))[|pre|..];
    DecimalRoundTrip(a);
    DecimalRoundTrip(b);
  }

  /** `tables`, the listing (glide.py:214). */
  const TablesPath: string := "tables"

  /** `tables?onSchemaError=dropColumns`, table creation (glide.py:173). */
  const CreateTablePath: string := "tables?onSchemaError=dropColumns"

  /** `tables/{table_id}?onSchemaError=dropColumns`, table overwrite (glide.py:195). */
  function OverwriteTablePath(tableId: string): string {
    "tables/" + tableId + "?onSchemaError=dropColumns"
  }
}
