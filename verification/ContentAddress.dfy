/**
 Content addresses, staging session ids and the file names the disk store derives from them.
 A byte is modelled as a character; SHA-256 is a parameter that maps bytes to an address.
 */
module ContentAddress {
  import opened GoStrings

  type Bytes = string
  type Path = seq<string>

  const ADDRESS_LENGTH := 64

  predicate IsHex(c: char) { '0' <= c <= '9' || 'a' <= c <= 'f' }

  /** Exactly 64 lowercase hex characters. */
  predicate Canonical(key: string) {
    |key| == ADDRESS_LENGTH && forall i | 0 <= i < |key| :: IsHex(key[i])
  }

  type Digest = key: string | Canonical(key) witness seq(64, _ => '0')

  /** SHA-256, hex encoded. */
  type Hash = Bytes -> Digest

  method CanonicalContentAddress(key: string) returns (ok: bool)
    ensures ok == Canonical(key)
  {
    if |key| != ADDRESS_LENGTH {
      return false;
    }
    for i := 0 to |key|
      invariant forall j | 0 <= j < i :: IsHex(key[j])
    {
      var c := key[i];
      if (c < '0' || c > '9') && (c < 'a' || c > 'f') {
        return false;
      }
    }
    return true;
  }

  /** `strings.ToLower`, on the characters an address can come from. */
  function ToLower(s: string): (r: string)
    ensures |r| == |s| && forall i | 0 <= i < |s| :: r[i] == LowerChar(s[i])
  {
    seq(|s|, i requires 0 <= i < |s| => LowerChar(s[i]))
  }

  /** How a caller's digest and the recorded digest are read. */
  function Normalise(s: string): string { ToLower(TrimSpace(s)) }

  lemma LowerIsFixed(d: Digest)
    ensures ToLower(d) == d
  {
    forall i | 0 <= i < |d| ensures LowerChar(d[i]) == d[i] { assert IsHex(d[i]); }
  }

  lemma TrimNewline(d: string)
    requires d != "" && !IsSpace(d[0]) && !IsSpace(d[|d| - 1])
    ensures TrimSpace(d + "\n") == d
  {
    TrimRightAppend(d, "\n");
    assert TrimRight("\n") == "";
  }

  /** The recorded digest, written with a newline, reads back as itself. */
  lemma NormaliseRecorded(d: Digest)
    ensures Normalise(d + "\n") == d
  {
    assert IsHex(d[0]) && IsHex(d[|d| - 1]);
    TrimNewline(d);
    LowerIsFixed(d);
  }

  predicate IsSessionChar(c: char) {
    'A' <= c <= 'Z' || 'a' <= c <= 'z' || '0' <= c <= '9' || c == '_' || c == '-'
  }

  /** The session grammar: 1 to 128 letters, digits, underscores and hyphens. */
  predicate ValidSession(s: string) {
    1 <= |s| <= 128 && forall i | 0 <= i < |s| :: IsSessionChar(s[i])
  }

  function ObjectPath(key: string): Path {
    ["objects", if |key| > 2 then key[..2] else key, key]
  }

  function PendingPath(session: string): Path { ["staging", session + ".pending"] }

  function SidecarPath(session: string): Path { ["staging", session + ".sha256"] }

  /** The three names never clash, and none is shared by two keys or two sessions. */
  lemma PathsAreDistinct(a: string, b: string)
    ensures ObjectPath(a) == ObjectPath(b) <==> a == b
    ensures PendingPath(a) == PendingPath(b) <==> a == b
    ensures SidecarPath(a) == SidecarPath(b) <==> a == b
    ensures PendingPath(a) != SidecarPath(b)
    ensures ObjectPath(a) != PendingPath(b) && ObjectPath(a) != SidecarPath(b)
  {
    assert ObjectPath(a)[2] == a && ObjectPath(b)[2] == b;
    var p, q := a + ".pending", b + ".sha256";
    assert p[|p| - 1] == 'g' && q[|q| - 1] == '6';
    assert PendingPath(a)[1] == p && SidecarPath(b)[1] == q;
    assert PendingPath(b)[1] == b + ".pending" && SidecarPath(a)[1] == a + ".sha256";
    assert p[..|p| - 8] == a && (b + ".pending")[..|b|] == b;
    assert q[..|q| - 7] == b && (a + ".sha256")[..|a|] == a;
  }
}
