/** Small shared vocabulary: optional values, bytes and C-style bounded
    string copies. */
module Common {

  datatype Option<T> = None | Some(value: T)

  /** One octet. */
  type byte = x: int | 0 <= x < 256

  function Min(a: int, b: int): (r: int)
    ensures r <= a && r <= b
    ensures r == a || r == b
  {
    if a < b then a else b
  }

  /** What `strncpy(dst, src, n)` followed by `dst[n] = '\0'` keeps of
      `src` (the text before its terminator): at most `n` characters. */
  function Truncate<T>(s: seq<T>, n: nat): (r: seq<T>)
    ensures |r| <= n && |r| <= |s|
    ensures |s| <= n ==> r == s
    ensures |s| > n ==> |r| == n
    ensures r == s[..|r|]
  {
    if |s| <= n then s else s[..n]
  }

  /** An IPv4 socket address (`struct sockaddr_in`): address and port as
      numbers. */
  datatype Endpoint = Endpoint(ip: nat, port: nat)

  /** What `stat` finds at a path. */
  datatype Node = Dir | File(size: nat)

  /** The part of the server's file system the core looks at: which paths
      exist and what they are. */
  type FileSystem = map<string, Node>

  lemma ConcatAssoc<T>(a: seq<T>, b: seq<T>, c: seq<T>)
    ensures a + (b + c) == (a + b) + c
  {
  }

  /** `n` zero octets. */
  function Zeros(n: nat): (r: seq<byte>)
    ensures |r| == n
    ensures forall i :: 0 <= i < n ==> r[i] == 0
  {
    if n == 0 then [] else Zeros(n - 1) + [0]
  }
}
