/** What several parts of the file system share: optional values and the page geometry
    (include/cache_params.h, mount_slash/pgcache.h). */
module Common {
  datatype Option<+T> = None | Some(value: T)

  /** BMPC_BUFSZ: the size of a cached page. */
  const BUFSZ: nat := 0x8000

  /** LNET_MTU, which is also MIN_COALESCE_RPC_SZ. */
  const MTU: nat := 0x10_0000

  /** BMPC_MAXBUFSRPC */
  const MAX_RPC_BUFS: nat := MTU / BUFSZ

  /** BMPC_COALESCE_MAX_IOV */
  const MAX_IOV: nat := MAX_RPC_BUFS + 1

  /** SLASH_BMAP_SIZE */
  const BMAP_SIZE: nat := 0x800_0000

  /** The offset of the page that holds an offset. */
  function Align(x: nat): nat {
    x - x % BUFSZ
  }

  function Max(a: nat, b: nat): nat {
    if a < b then b else a
  }

  // ----- Lists of identities -----

  ghost predicate Distinct(s: seq<nat>) {
    s == [] || (s[0] !in s[1..] && Distinct(s[1..]))
  }

  function Remove(s: seq<nat>, x: nat): seq<nat> {
    if s == [] then [] else if s[0] == x then s[1..] else [s[0]] + Remove(s[1..], x)
  }

  lemma {:induction false} RemoveDistinct(s: seq<nat>, x: nat)
    requires Distinct(s)
    ensures Distinct(Remove(s, x)) && forall y :: y in Remove(s, x) <==> y in s && y != x
  {
    if s != [] {
      assert s == [s[0]] + s[1..];
      if s[0] != x {
        RemoveDistinct(s[1..], x);
        assert Remove(s, x)[1..] == Remove(s[1..], x);
      }
    }
  }

  lemma {:induction false} AppendDistinct(s: seq<nat>, x: nat)
    requires Distinct(s) && x !in s
    ensures Distinct(s + [x])
  {
    if s == [] {
      assert (s + [x])[1..] == [];
    } else {
      AppendDistinct(s[1..], x);
      assert (s + [x])[1..] == s[1..] + [x];
    }
  }

  lemma {:induction false} NotBefore(s: seq<nat>, i: nat)
    requires Distinct(s) && i < |s|
    ensures s[i] !in s[..i]
  {
    if i > 0 {
      NotBefore(s[1..], i - 1);
      assert s[..i] == [s[0]] + s[1..][..i - 1];
      assert s[i] in s[1..];
    }
  }
}
