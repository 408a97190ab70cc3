/** Options, bytes, pages and the page arithmetic shared by every other module. */
module Base {

  datatype Option<+T> = None | Some(value: T) {
    function GetOr(default: T): T {
      if Some? then value else default
    }
  }

  datatype Errno = EINVAL | EFAULT | ENOSYS
  datatype SysResult = Done(value: nat) | Fail(errno: Errno)

  const PAGE_SIZE: nat := 4096

  newtype byte = x: int | 0 <= x < 256

  function Zeros(n: nat): (s: seq<byte>)
    ensures |s| == n && forall i :: 0 <= i < n ==> s[i] == 0
  {
    seq(n, _ => 0)
  }

  /** The contents of one 4 KiB frame. */
  type Page = p: seq<byte> | |p| == PAGE_SIZE witness Zeros(PAGE_SIZE)

  function ZeroPage(): (p: Page)
    ensures forall i :: 0 <= i < PAGE_SIZE ==> p[i] == 0
  {
    Zeros(PAGE_SIZE)
  }

  /** Round `n` down to a multiple of `b`. */
  function RoundDown(n: nat, b: nat): (r: nat)
    requires b > 0
    ensures r <= n < r + b && r % b == 0
  {
    RoundDownFacts(n, b);
    n - n % b
  }

  lemma {:induction false} RoundDownFacts(n: nat, b: nat)
    requires b > 0
    ensures 0 <= n % b < b && n % b <= n
    ensures (n - n % b) % b == 0
  {
    assert n == b * (n / b) + n % b;
    MultipleMod(n / b, b);
    assert b * (n / b) == (n / b) * b;
  }

  lemma {:induction false} MultipleMod(q: nat, b: nat)
    requires b > 0
    ensures (q * b) % b == 0
  {
    if q > 0 {
      MultipleMod(q - 1, b);
      assert q * b == (q - 1) * b + b;
      assert ((q - 1) * b + b) % b == 0 by { AddModulus((q - 1) * b, b); }
    }
  }

  lemma AddModulus(n: nat, b: nat)
    requires b > 0
    ensures (n + b) % b == n % b
    ensures (n + b) / b == n / b + 1
  {
    var q, r := n / b, n % b;
    assert n + b == b * (q + 1) + r;
    DivModUnique(n + b, b, q + 1, r);
  }

  lemma MulAtLeast(b: nat, k: nat)
    requires k >= 1
    ensures b * k >= b
  {
  }

  lemma DivModUnique(n: nat, b: nat, q: nat, r: nat)
    requires b > 0 && r < b && n == b * q + r
    ensures n / b == q && n % b == r
  {
    var q', r' := n / b, n % b;
    assert b * q' + r' == b * q + r;
    assert b * (q' - q) == r - r';
    assert q' == q by {
      if q' - q >= 1 { MulAtLeast(b, q' - q); assert false; }
      if q - q' >= 1 { MulAtLeast(b, q - q'); assert false; }
    }
  }

  /** Round `n` up to a multiple of `b`. */
  function RoundUp(n: nat, b: nat): (r: nat)
    requires b > 0
    ensures n <= r < n + b && r % b == 0
  {
    RoundDownFacts(n, b);
    if n % b == 0 then n
    else
      var d := n - n % b;
      AddModulus(d, b);
      d + b
  }

  /** The page that holds address `a`. */
  function PageOf(a: nat): (p: nat)
    ensures p <= a < p + PAGE_SIZE && p % PAGE_SIZE == 0 && p == a - a % PAGE_SIZE
  {
    a - a % PAGE_SIZE
  }

  /** `s` with the bytes from `off` on overwritten by `data`. */
  function Splice(s: seq<byte>, off: nat, data: seq<byte>): (r: seq<byte>)
    requires off + |data| <= |s|
    ensures |r| == |s|
    ensures forall i :: 0 <= i < |s| ==> r[i] == if off <= i < off + |data| then data[i - off] else s[i]
  {
    s[..off] + data + s[off + |data|..]
  }
}
