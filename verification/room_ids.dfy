/** Names of the fixed room pool: `room-<i>` identifiers and `Salon de Jeu <i>`
    display names, built from the decimal rendering of the room number exactly as
    the server's template strings do. */
module RoomIds {

  /** The character of one decimal digit. */
  function Digit(d: nat): (c: char)
    requires d < 10
    ensures '0' <= c <= '9'
  {
    ('0' as int + d) as char
  }

  /** Decimal rendering of a natural number, most significant digit first,
      without leading zeros. */
  function Decimal(n: nat): (s: string)
    ensures 1 <= |s|
    ensures 10 <= n ==> 2 <= |s|
    ensures forall i :: 0 <= i < |s| ==> '0' <= s[i] <= '9'
    decreases n
  {
    if n < 10 then [Digit(n)] else Decimal(n / 10) + [Digit(n % 10)]
  }

  /** Two numbers with the same decimal rendering are equal. */
  lemma {:induction false} DecimalInjective(a: nat, b: nat)
    requires Decimal(a) == Decimal(b)
    ensures a == b
    decreases a
  {
    if a < 10 && b < 10 {
      assert Decimal(a)[0] == Digit(a);
    } else if 10 <= a && 10 <= b {
      var sa, sb := Decimal(a), Decimal(b);
      assert sa[|sa| - 1] == Digit(a % 10);
      assert sb[|sb| - 1] == Digit(b % 10);
      assert sa[..|sa| - 1] == Decimal(a / 10);
      assert sb[..|sb| - 1] == Decimal(b / 10);
      DecimalInjective(a / 10, b / 10);
    } else {
      // One number is below ten and the other is not: the renderings differ in length.
    }
  }

  /** The identifier of the i-th room of the pool. */
  function RoomIdOf(i: nat): string
  {
    "room-" + Decimal(i)
  }

  /** The display name of the i-th room of the pool. */
  function RoomNameOf(i: nat): string
  {
    "Salon de Jeu " + Decimal(i)
  }

  /** Distinct room numbers give distinct room identifiers. */
  lemma RoomIdInjective(i: nat, j: nat)
    requires RoomIdOf(i) == RoomIdOf(j)
    ensures i == j
  {
    var p := "room-";
    assert RoomIdOf(i)[|p|..] == Decimal(i);
    assert RoomIdOf(j)[|p|..] == Decimal(j);
    DecimalInjective(i, j);
  }
}
