/**
 * The console's authorisation scheme: seven capability bits, a role-to-mask
 * table, a module/item table of required-permission strings, the check that
 * decides whether a user's mask satisfies such a string, and the session
 * store that holds the mask and the tokens.
 *
 * A required-permission string lists alternatives separated by `|`; the user
 * passes when the mask contains every bit of at least one alternative (the
 * check is `(user & p) === p`, containment of a whole alternative, not a
 * shared bit). A mask of exactly 127 passes without looking at the string.
 */
module Permissions {
  import opened JsText
  import opened WebStorage

  // ---------------------------------------------------------------------
  // capability bits and roles

  datatype Capability =
    | ManageUsers | ManageProducts | ManageOrders | ManagePromotions
    | ActivateAccounts | ViewDashboard | ManageDelivery

  const ALL_CAPABILITIES: seq<Capability> :=
    [ManageUsers, ManageProducts, ManageOrders, ManagePromotions,
     ActivateAccounts, ViewDashboard, ManageDelivery]

  /** `PERMISSION_BITS`. */
  function Bit(c: Capability): nat {
    match c
    case ManageUsers => 1
    case ManageProducts => 2
    case ManageOrders => 4
    case ManagePromotions => 8
    case ActivateAccounts => 16
    case ViewDashboard => 32
    case ManageDelivery => 64
  }

  /** The mask that the super-admin check compares against. */
  const FULL_ACCESS: int := 127

  datatype Role =
    | SuperAdmin | GeneralAdmin | StockAdmin | OrderAdmin | DeliveryAdmin | ManageGeneralAdmin

  const ALL_ROLES: seq<Role> :=
    [SuperAdmin, GeneralAdmin, StockAdmin, OrderAdmin, DeliveryAdmin, ManageGeneralAdmin]

  /** `ROLE_PERMISSIONS`: the literal mask of each role. */
  function RoleMask(r: Role): nat {
    match r
    case SuperAdmin => 127
    case GeneralAdmin => 42
    case StockAdmin => 34
    case OrderAdmin => 36
    case DeliveryAdmin => 96
    case ManageGeneralAdmin => 126
  }

  /** The capabilities that the comment beside each role's mask names. */
  function RoleCapabilities(r: Role): seq<Capability> {
    match r
    case SuperAdmin => ALL_CAPABILITIES
    case GeneralAdmin => [ViewDashboard, ManagePromotions, ManageProducts]
    case StockAdmin => [ViewDashboard, ManageProducts]
    case OrderAdmin => [ViewDashboard, ManageOrders]
    case DeliveryAdmin => [ViewDashboard, ManageDelivery]
    case ManageGeneralAdmin =>
      [ManageDelivery, ViewDashboard, ManageProducts, ManageOrders, ManagePromotions, ActivateAccounts]
  }

  /** The bitwise OR of the capabilities' bits. */
  function OrBits(cs: seq<Capability>): nat {
    if cs == [] then 0 else Or(Bit(cs[0]), OrBits(cs[1..]))
  }

  function SumBits(cs: seq<Capability>): nat {
    if cs == [] then 0 else Bit(cs[0]) + SumBits(cs[1..])
  }

  // ---------------------------------------------------------------------
  // JavaScript's `&` and `|` on numbers

  const TWO_32: int := 0x1_0000_0000
  const TWO_31: int := 0x8000_0000

  /** Bitwise AND of two naturals. */
  function And(a: nat, b: nat): (r: nat)
    ensures r <= a && r <= b
  {
    if a == 0 || b == 0 then 0
    else 2 * And(a / 2, b / 2) + (if a % 2 == 1 && b % 2 == 1 then 1 else 0)
  }

  /** Bitwise OR of two naturals. */
  function Or(a: nat, b: nat): (r: nat)
    ensures r >= a && r >= b
  {
    if a == 0 then b
    else if b == 0 then a
    else 2 * Or(a / 2, b / 2) + (if a % 2 == 1 || b % 2 == 1 then 1 else 0)
  }

  /** ECMAScript ToUint32 of an integer. */
  function ToUint32(x: int): (r: nat)
    ensures r < TWO_32
  {
    x % TWO_32
  }

  /** The signed 32-bit integer that a 32-bit pattern stands for. */
  function ToInt32(u: nat): (r: int)
    requires u < TWO_32
    ensures -TWO_31 <= r < TWO_31
  {
    if u >= TWO_31 then u - TWO_32 else u
  }

  /** The 32-bit pattern of a number as `&` sees it; NaN counts as 0. */
  function Uint32Of(n: Num): (r: nat)
    ensures r < TWO_32
  {
    match n
    case NaN => 0
    case Int(v) => ToUint32(v)
  }

  /** `a & b`: both operands cut to 32 bits, the result read as signed. */
  function BitAnd(a: Num, b: Num): int {
    ToInt32(And(Uint32Of(a), Uint32Of(b)))
  }

  // ---------------------------------------------------------------------
  // hasPermission

  /** `(userPermissions & permission) === permission` for one parsed piece;
      NaN is never strictly equal to anything. */
  predicate PieceMatches(user: Num, piece: Num) {
    piece.Int? && BitAnd(user, piece) == piece.value
  }

  /** `String(required).split('|').map(p => parseInt(p.trim()))`. */
  function RequiredPieces(required: string): (r: seq<Num>)
    ensures |r| == |Split(required, '|')| && |r| >= 1
    ensures forall i | 0 <= i < |r| :: r[i] == ParseInt(Trim(Split(required, '|')[i]))
  {
    var pieces := Split(required, '|');
    seq(|pieces|, i requires 0 <= i < |pieces| => ParseInt(Trim(pieces[i])))
  }

  /** A required string with k separators `|` yields k + 1 pieces, one
      per alternative. */
  lemma RequiredPiecesCount(required: string)
    ensures |RequiredPieces(required)| == Occurrences(required, '|') + 1
  {
    SplitCount(required, '|');
  }

  /** `pieces.some(p => (user & p) === p)`. */
  function AnyMatches(user: Num, pieces: seq<Num>): bool {
    if pieces == [] then false
    else PieceMatches(user, pieces[0]) || AnyMatches(user, pieces[1..])
  }

  /** `hasPermission(userPermissions, requiredPermissions)`. */
  function HasPermission(user: Num, required: string): bool {
    if user == Int(FULL_ACCESS) then true
    else AnyMatches(user, RequiredPieces(required))
  }

  // ---------------------------------------------------------------------
  // the module and item table

  /** One entry of `MODULE_PERMISSIONS`: the module's own required string
      and its items' required strings. */
  datatype ModuleAccess = ModuleAccess(moduleLevel: string, items: map<string, string>)

  /** `MODULE_PERMISSIONS`. */
  const MODULE_PERMISSIONS: map<string, ModuleAccess> := map[
    "1" := ModuleAccess("32 | 16", map[
      "1-1" := "127",
      "1-2" := "127",
      "1-3" := "126 | 42 | 34 | 36 | 96"]),
    "2" := ModuleAccess("32 | 2", map[
      "2-1" := "34",
      "2-2" := "42",
      "2-3" := "34",
      "2-4" := "34"]),
    "3" := ModuleAccess("32 | 4 | 64", map[
      "3-1" := "36",
      "3-2" := "96",
      "3-3" := "36"]),
    "4" := ModuleAccess("32 | 8", map[
      "4-1" := "42",
      "4-2" := "42",
      "4-3" := "42",
      "4-4" := "42"])
  ]

  // ---------------------------------------------------------------------
  // what the bits, the roles and the check promise

  /** Every bit set in `b` is also set in `a`. */
  predicate BitsWithin(b: nat, a: nat) {
    b == 0 || (a > 0 && (b % 2 == 1 ==> a % 2 == 1) && BitsWithin(b / 2, a / 2))
  }

  /** No bit is set in both `a` and `b`. */
  predicate Disjoint(a: nat, b: nat) {
    a == 0 || b == 0 || (!(a % 2 == 1 && b % 2 == 1) && Disjoint(a / 2, b / 2))
  }

  /** `(a & b) === b` says exactly that `b`'s bits are within `a`'s. */
  lemma {:induction false} AndWithin(a: nat, b: nat)
    ensures And(a, b) == b <==> BitsWithin(b, a)
  {
    if a != 0 && b != 0 {
      AndWithin(a / 2, b / 2);
    }
  }

  /** On disjoint bits `|` is addition, which is why the comments may
      write a mask as a sum. */
  lemma {:induction false} OrDisjoint(a: nat, b: nat)
    requires Disjoint(a, b)
    ensures Or(a, b) == a + b
  {
    if a != 0 && b != 0 {
      OrDisjoint(a / 2, b / 2);
    }
  }

  /** A mask's sub-masks are no larger than the mask. */
  lemma {:induction false} WithinBounded(b: nat, a: nat)
    requires BitsWithin(b, a)
    ensures b <= a
  {
    if b != 0 {
      WithinBounded(b / 2, a / 2);
    }
  }

  predicate IsPowerOfTwo(n: nat) {
    n == 1 || (n > 1 && n % 2 == 0 && IsPowerOfTwo(n / 2))
  }

  lemma OrBitsCons(c: Capability, cs: seq<Capability>)
    requires Disjoint(Bit(c), OrBits(cs))
    ensures OrBits([c] + cs) == Bit(c) + OrBits(cs)
    ensures SumBits([c] + cs) == Bit(c) + SumBits(cs)
  {
    assert ([c] + cs)[1..] == cs;
    OrDisjoint(Bit(c), OrBits(cs));
  }

  /** The seven bits are distinct powers of two from 1 to 64. */
  lemma CapabilityBits()
    ensures forall c :: IsPowerOfTwo(Bit(c)) && 1 <= Bit(c) <= 64
    ensures forall c, d | c != d :: Bit(c) != Bit(d)
    ensures |ALL_CAPABILITIES| == 7 && forall c :: c in ALL_CAPABILITIES
  {
    assert IsPowerOfTwo(1) && IsPowerOfTwo(2) && IsPowerOfTwo(4) && IsPowerOfTwo(8);
    assert IsPowerOfTwo(16) && IsPowerOfTwo(32) && IsPowerOfTwo(64);
    forall c ensures c in ALL_CAPABILITIES {
      var k := Bit(c);
      var i := if k == 1 then 0 else if k == 2 then 1 else if k == 4 then 2 else if k == 8 then 3
               else if k == 16 then 4 else if k == 32 then 5 else 6;
      assert ALL_CAPABILITIES[i] == c;
    }
  }

  /** One more capability whose bit is clear in `n`, the OR and the sum of
      the bits after it, adds its bit to both. */
  lemma OrBitsStep(c: Capability, cs: seq<Capability>, n: nat)
    requires OrBits(cs) == n == SumBits(cs) && Disjoint(Bit(c), n)
    ensures OrBits([c] + cs) == Bit(c) + n == SumBits([c] + cs)
  {
    OrBitsCons(c, cs);
  }

  /** The four highest bits make 120. */
  lemma HighBits()
    ensures OrBits([ManagePromotions, ActivateAccounts, ViewDashboard, ManageDelivery]) == 120
    ensures SumBits([ManagePromotions, ActivateAccounts, ViewDashboard, ManageDelivery]) == 120
  {
    OrBitsStep(ManageDelivery, [], 0);
    assert [ManageDelivery] == [ManageDelivery] + [];
    assert Disjoint(32, 64);
    OrBitsStep(ViewDashboard, [ManageDelivery], 64);
    assert [ViewDashboard, ManageDelivery] == [ViewDashboard] + [ManageDelivery];
    assert Disjoint(16, 96);
    OrBitsStep(ActivateAccounts, [ViewDashboard, ManageDelivery], 96);
    assert [ActivateAccounts, ViewDashboard, ManageDelivery] == [ActivateAccounts] + [ViewDashboard, ManageDelivery];
    assert Disjoint(8, 112);
    OrBitsStep(ManagePromotions, [ActivateAccounts, ViewDashboard, ManageDelivery], 112);
    assert [ManagePromotions, ActivateAccounts, ViewDashboard, ManageDelivery]
      == [ManagePromotions] + [ActivateAccounts, ViewDashboard, ManageDelivery];
  }

  /** Together the seven bits make the full-access mask 127. */
  lemma AllCapabilitiesBits()
    ensures OrBits(ALL_CAPABILITIES) == FULL_ACCESS == SumBits(ALL_CAPABILITIES)
  {
    var high := [ManagePromotions, ActivateAccounts, ViewDashboard, ManageDelivery];
    HighBits();
    assert Disjoint(4, 120);
    OrBitsStep(ManageOrders, high, 120);
    var s2 := [ManageOrders] + high;
    assert Disjoint(2, 124);
    OrBitsStep(ManageProducts, s2, 124);
    var s1 := [ManageProducts] + s2;
    assert Disjoint(1, 126);
    OrBitsStep(ManageUsers, s1, 126);
    assert ALL_CAPABILITIES == [ManageUsers] + s1;
  }

  /** The OR, and the sum, of two distinct capabilities other than the
      dashboard, with the dashboard bit added. */
  lemma DashboardPair(c: Capability)
    requires Disjoint(32, Bit(c))
    ensures OrBits([ViewDashboard, c]) == 32 + Bit(c) == SumBits([ViewDashboard, c])
  {
    OrBitsCons(c, []);
    assert [c] == [c] + [];
    OrBitsCons(ViewDashboard, [c]);
  }

  lemma GeneralAdminBits()
    ensures OrBits(RoleCapabilities(GeneralAdmin)) == 42 == SumBits(RoleCapabilities(GeneralAdmin))
  {
    OrBitsCons(ManageProducts, []);
    assert [ManageProducts] == [ManageProducts] + [];
    assert Disjoint(8, 2);
    OrBitsCons(ManagePromotions, [ManageProducts]);
    assert Disjoint(32, 10);
    OrBitsCons(ViewDashboard, [ManagePromotions, ManageProducts]);
  }

  /** A power of two shares no bit with a smaller number. */
  lemma {:induction false} DisjointBelow(p: nat, n: nat)
    requires IsPowerOfTwo(p) && n < p
    ensures Disjoint(p, n)
  {
    if p > 1 && n > 0 {
      DisjointBelow(p / 2, n / 2);
    }
  }

  /** The delivery and dashboard bits on top of capabilities whose bits
      are all below 32. */
  lemma DeliveryDashboardOver(low: seq<Capability>, n: nat)
    requires OrBits(low) == n == SumBits(low) && n < 32
    ensures OrBits([ManageDelivery, ViewDashboard] + low) == 96 + n
    ensures SumBits([ManageDelivery, ViewDashboard] + low) == 96 + n
  {
    assert IsPowerOfTwo(32) && IsPowerOfTwo(64);
    DisjointBelow(32, n);
    OrBitsStep(ViewDashboard, low, n);
    DisjointBelow(64, 32 + n);
    OrBitsStep(ManageDelivery, [ViewDashboard] + low, 32 + n);
    assert [ManageDelivery, ViewDashboard] + low == [ManageDelivery] + ([ViewDashboard] + low);
  }

  lemma ManageGeneralAdminBits()
    ensures OrBits(RoleCapabilities(ManageGeneralAdmin)) == 126 == SumBits(RoleCapabilities(ManageGeneralAdmin))
  {
    var low := [ManageProducts, ManageOrders, ManagePromotions, ActivateAccounts];
    LowBits();
    DeliveryDashboardOver(low, 30);
    assert RoleCapabilities(ManageGeneralAdmin) == [ManageDelivery, ViewDashboard] + low;
  }

  /** Products, orders, promotions and account activation make 30. */
  lemma LowBits()
    ensures OrBits([ManageProducts, ManageOrders, ManagePromotions, ActivateAccounts]) == 30
    ensures SumBits([ManageProducts, ManageOrders, ManagePromotions, ActivateAccounts]) == 30
  {
    OrBitsStep(ActivateAccounts, [], 0);
    assert [ActivateAccounts] == [ActivateAccounts] + [];
    assert Disjoint(8, 16);
    OrBitsStep(ManagePromotions, [ActivateAccounts], 16);
    assert [ManagePromotions, ActivateAccounts] == [ManagePromotions] + [ActivateAccounts];
    assert Disjoint(4, 24);
    OrBitsStep(ManageOrders, [ManagePromotions, ActivateAccounts], 24);
    assert [ManageOrders, ManagePromotions, ActivateAccounts] == [ManageOrders] + [ManagePromotions, ActivateAccounts];
    assert Disjoint(2, 28);
    OrBitsStep(ManageProducts, [ManageOrders, ManagePromotions, ActivateAccounts], 28);
    assert [ManageProducts, ManageOrders, ManagePromotions, ActivateAccounts]
      == [ManageProducts] + [ManageOrders, ManagePromotions, ActivateAccounts];
  }

  /** Every role's mask is both the sum and the OR of the bits that the
      comment beside it names. */
  lemma RoleMasksMatchComments()
    ensures forall r :: RoleMask(r) == SumBits(RoleCapabilities(r)) == OrBits(RoleCapabilities(r))
  {
    forall r ensures RoleMask(r) == SumBits(RoleCapabilities(r)) == OrBits(RoleCapabilities(r)) {
      match r
      case SuperAdmin => AllCapabilitiesBits();
      case GeneralAdmin => GeneralAdminBits();
      case StockAdmin => assert Disjoint(32, 2); DashboardPair(ManageProducts);
      case OrderAdmin => assert Disjoint(32, 4); DashboardPair(ManageOrders);
      case DeliveryAdmin => assert Disjoint(32, 64); DashboardPair(ManageDelivery);
      case ManageGeneralAdmin => ManageGeneralAdminBits();
    }
  }

  /** No role has a bit outside the full-access mask. */
  lemma RoleMasksWithinFullAccess()
    ensures forall r :: BitsWithin(RoleMask(r), FULL_ACCESS)
  {
    forall r ensures BitsWithin(RoleMask(r), FULL_ACCESS) {
      match r
      case SuperAdmin => assert BitsWithin(127, 127);
      case GeneralAdmin => assert BitsWithin(42, 127);
      case StockAdmin => assert BitsWithin(34, 127);
      case OrderAdmin => assert BitsWithin(36, 127);
      case DeliveryAdmin => assert BitsWithin(96, 127);
      case ManageGeneralAdmin => assert BitsWithin(126, 127);
    }
  }

  /** `some` is the existence of one matching piece. */
  lemma {:induction false} AnyMatchesExists(user: Num, pieces: seq<Num>)
    ensures AnyMatches(user, pieces) <==> exists p | p in pieces :: PieceMatches(user, p)
  {
    if pieces != [] {
      AnyMatchesExists(user, pieces[1..]);
      assert forall p | p in pieces :: p == pieces[0] || p in pieces[1..];
    }
  }

  /** For a user other than 127, access is granted exactly when one whole
      `|`-separated alternative is contained in the user's mask. */
  lemma HasPermissionIff(user: Num, required: string)
    ensures HasPermission(user, required)
            <==> user == Int(FULL_ACCESS)
                 || exists p | p in RequiredPieces(required) :: PieceMatches(user, p)
  {
    AnyMatchesExists(user, RequiredPieces(required));
  }

  /** One piece matches exactly when it is a signed 32-bit integer all of
      whose bits the user's mask has: containment, not overlap. */
  lemma PieceMatchesIff(user: Num, p: int)
    ensures PieceMatches(user, Int(p))
            <==> -TWO_31 <= p < TWO_31 && BitsWithin(ToUint32(p), Uint32Of(user))
  {
    var a := And(Uint32Of(user), ToUint32(p));
    Int32RoundTrip(a, p);
    AndWithin(Uint32Of(user), ToUint32(p));
  }

  /** A 32-bit pattern reads as the signed integer `p` exactly when `p` is
      in range and the pattern is `p`'s own. */
  lemma Int32RoundTrip(a: nat, p: int)
    requires a < TWO_32
    ensures ToInt32(a) == p <==> -TWO_31 <= p < TWO_31 && a == ToUint32(p)
  {
    if -TWO_31 <= p < 0 {
      assert ToUint32(p) == p + TWO_32;
    } else if 0 <= p < TWO_31 {
      assert ToUint32(p) == p;
    }
  }

  /** For a non-negative piece and a mask below 2^31 this is plain
      containment of the numbers' bits. */
  lemma PieceMatchesSmall(m: nat, p: nat)
    requires m < TWO_31 && p < TWO_31
    ensures PieceMatches(Int(m), Int(p)) <==> BitsWithin(p, m)
  {
    assert ToUint32(p) == p && ToUint32(m) == m;
    AndWithin(m, p);
  }

  /** A piece that does not parse never matches; a piece that parses to 0
      matches every user. */
  lemma PieceEdgeCases(user: Num)
    ensures !PieceMatches(user, NaN)
    ensures PieceMatches(user, Int(0))
  {
  }

  lemma {:induction false} AndCommutes(a: nat, b: nat)
    ensures And(a, b) == And(b, a)
  {
    if a != 0 && b != 0 {
      AndCommutes(a / 2, b / 2);
    }
  }

  lemma AndHalves(a: nat, b: nat)
    ensures And(a, b) / 2 == And(a / 2, b / 2)
    ensures And(a, b) % 2 == (if a % 2 == 1 && b % 2 == 1 then 1 else 0)
  {
    if a == 0 || b == 0 {
      if a == 0 { assert a / 2 == 0; } else { assert b / 2 == 0; }
    }
  }

  lemma {:induction false} AndAssociates(a: nat, b: nat, c: nat)
    ensures And(And(a, b), c) == And(a, And(b, c))
    decreases a
  {
    if a != 0 && b != 0 && c != 0 {
      AndAssociates(a / 2, b / 2, c / 2);
      AndHalves(a, b);
      AndHalves(b, c);
      var ab, bc := And(a, b), And(b, c);
      if ab == 0 {
        assert And(a / 2, b / 2) == 0;
        assert And(0, c / 2) == 0;
        AndHalves(a, bc);
      } else if bc == 0 {
        assert And(b / 2, c / 2) == 0;
        AndHalves(ab, c);
      }
    }
  }

  /** If `p`'s bits are within `u`'s, they are within those of any `v`
      holding every bit of `u`. */
  lemma AndFixedMonotone(u: nat, v: nat, p: nat)
    requires BitsWithin(u, v) && And(u, p) == p
    ensures And(v, p) == p
  {
    AndWithin(v, u);
    calc {
      And(v, p);
    ==
      And(v, And(u, p));
    == { AndAssociates(v, u, p); }
      And(And(v, u), p);
    ==
      And(u, p);
    }
  }

  /** Gaining bits never loses a piece: if `v` has every bit of `u`, every
      piece that `u` matches, `v` matches too. */
  lemma PieceMatchesMonotone(u: Num, v: Num, p: Num)
    requires BitsWithin(Uint32Of(u), Uint32Of(v))
    requires PieceMatches(u, p)
    ensures PieceMatches(v, p)
  {
    var U, V, P := Uint32Of(u), Uint32Of(v), ToUint32(p.value);
    var a := And(U, P);
    assert a < TWO_32;
    assert ToInt32(a) == p.value;
    assert a == P;
    AndFixedMonotone(U, V, P);
  }

  /** Monotonicity of `hasPermission` in the user's mask, wherever the
      127 short cut does not intervene. */
  lemma HasPermissionMonotone(u: Num, v: Num, required: string)
    requires BitsWithin(Uint32Of(u), Uint32Of(v))
    requires u != Int(FULL_ACCESS) || v == Int(FULL_ACCESS)
    requires HasPermission(u, required)
    ensures HasPermission(v, required)
  {
    HasPermissionIff(u, required);
    HasPermissionIff(v, required);
    if v != Int(FULL_ACCESS) {
      var p :| p in RequiredPieces(required) && PieceMatches(u, p);
      PieceMatchesMonotone(u, v, p);
    }
  }

  lemma SmallUint32(x: nat)
    requires x < TWO_32
    ensures ToUint32(x) == x
  {
  }

  /** Among masks of the seven defined bits, gaining bits never loses
      access: there the 127 short cut is the top of the order. */
  lemma SevenBitMonotone(u: nat, v: nat, required: string)
    requires v <= FULL_ACCESS
    requires BitsWithin(u, v)
    requires HasPermission(Int(u), required)
    ensures HasPermission(Int(v), required)
  {
    WithinBounded(u, v);
    SmallUint32(u);
    SmallUint32(v);
    HasPermissionMonotone(Int(u), Int(v), required);
  }

  /** Outside the seven bits monotonicity fails at the 127 short cut: 127
      passes an empty required string, 255 (which has every bit of 127)
      does not. */
  lemma FullAccessShortcutNotMonotone()
    ensures BitsWithin(127, 255)
    ensures HasPermission(Int(127), "")
    ensures !HasPermission(Int(255), "")
  {
    EmptyRequired();
    assert BitsWithin(127, 255);
    assert !PieceMatches(Int(255), NaN);
    assert [NaN][1..] == [];
  }

  /** An empty required string is one piece that does not parse. */
  lemma EmptyRequired()
    ensures RequiredPieces("") == [NaN]
  {
    var r := RequiredPieces("");
    assert Split("", '|') == [""];
    assert TrimStart("") == "" && Trim("") == "";
    assert LeadingDigits("", 10) == [];
    assert ParseInt("") == NaN;
    assert r[0] == ParseInt(Trim(""));
  }

  /** The 127 short cut: the full mask passes whatever is required. */
  lemma FullAccessPassesAll(required: string)
    ensures HasPermission(Int(FULL_ACCESS), required)
  {
  }

  /** An empty required string admits only the full mask. */
  lemma EmptyRequiredAdmitsOnlyFullAccess(user: Num)
    ensures HasPermission(user, "") <==> user == Int(FULL_ACCESS)
  {
    EmptyRequired();
    HasPermissionIff(user, "");
  }

  /** A required string `'0'` admits every user, NaN included. */
  lemma ZeroRequiredAdmitsAll(user: Num)
    ensures HasPermission(user, "0")
  {
    assert DecimalString(0) == "0";
    assert ["0"][0] == Blank(true) + DecimalString(0) + Blank(true);
    assert Join(["0"], '|') == "0";
    PiecesOfMasks(["0"], [0]);
    HasPermissionIff(user, "0");
    assert RequiredPieces("0")[0] == Int(0);
    assert PieceMatches(user, Int(0));
  }

  // ---------------------------------------------------------------------
  // the table, parsed

  /** `n` written in decimal with whitespace around it parses back to `n`. */
  lemma MaskPiece(pre: string, n: nat, post: string)
    requires AllWhitespace(pre) && AllWhitespace(post)
    ensures ParseInt(Trim(pre + DecimalString(n) + post)) == Int(n)
  {
    var ds := DecimalString(n);
    NumeralEnds(ds);
    TrimPadded(pre, ds, post);
    ParseIntString(n, "");
    assert IntString(n) + "" == ds;
  }

  lemma NumeralEnds(ds: string)
    requires |ds| >= 1 && AllDigits(ds, 10)
    ensures !IsWhitespace(ds[0]) && !IsWhitespace(ds[|ds| - 1])
    ensures '|' !in ds
  {
    assert IsDigit(ds[0], 10) && IsDigit(ds[|ds| - 1], 10);
  }

  /** The blank that the table writes beside a `|`. */
  function Blank(atEnd: bool): string {
    if atEnd then "" else " "
  }

  lemma PaddedMask(first: bool, n: nat, last: bool)
    ensures '|' !in Blank(first) + DecimalString(n) + Blank(last)
    ensures ParseInt(Trim(Blank(first) + DecimalString(n) + Blank(last))) == Int(n)
  {
    var ds := DecimalString(n);
    NumeralEnds(ds);
    BlankIsWhitespace(first);
    BlankIsWhitespace(last);
    MaskPiece(Blank(first), n, Blank(last));
    NotInConcat(Blank(first), ds, Blank(last), '|');
  }

  lemma BlankIsWhitespace(atEnd: bool)
    ensures AllWhitespace(Blank(atEnd)) && '|' !in Blank(atEnd)
  {
    if !atEnd {
      assert Blank(atEnd) == [' '];
    }
  }

  lemma NotInConcat(a: string, b: string, c: string, x: char)
    requires x !in a && x !in b && x !in c
    ensures x !in a + b + c
  {
    forall k | 0 <= k < |a + b + c| ensures (a + b + c)[k] != x {
      if k < |a| {
        assert (a + b + c)[k] == a[k];
      } else if k < |a| + |b| {
        assert (a + b + c)[k] == b[k - |a|];
      } else {
        assert (a + b + c)[k] == c[k - |a| - |b|];
      }
    }
  }

  /** Decimal masks joined by ` | `, as the table writes them, parse back
      to those masks. */
  lemma PiecesOfMasks(ps: seq<string>, ns: seq<nat>)
    requires |ps| == |ns| >= 1
    requires forall i | 0 <= i < |ps| :: ps[i] == Blank(i == 0) + DecimalString(ns[i]) + Blank(i == |ps| - 1)
    ensures |RequiredPieces(Join(ps, '|'))| == |ns|
    ensures forall i | 0 <= i < |ns| :: RequiredPieces(Join(ps, '|'))[i] == Int(ns[i])
  {
    forall i | 0 <= i < |ps| ensures '|' !in ps[i] {
      PaddedMask(i == 0, ns[i], i == |ps| - 1);
    }
    SplitJoin(ps, '|');
    var r := RequiredPieces(Join(ps, '|'));
    forall i | 0 <= i < |r| ensures r[i] == Int(ns[i]) {
      PaddedMask(i == 0, ns[i], i == |ps| - 1);
      assert r[i] == ParseInt(Trim(ps[i]));
    }
  }

  // ---------------------------------------------------------------------
  // the access matrix: which role passes which entry of the table

  /** `required` splits into pieces that parse to exactly `masks`. */
  predicate ParsesTo(required: string, masks: seq<nat>) {
    var pieces := RequiredPieces(required);
    |pieces| == |masks| && forall i | 0 <= i < |masks| :: pieces[i] == Int(masks[i])
  }

  lemma Parse127()
    ensures ParsesTo("127", [127])
  {
    var ps := ["127"];
    assert ps[0] == Blank(true) + DecimalString(127) + Blank(true);
    assert Join(ps, '|') == "127";
    PiecesOfMasks(ps, [127]);
  }

  lemma Parse34()
    ensures ParsesTo("34", [34])
  {
    var ps := ["34"];
    assert ps[0] == Blank(true) + DecimalString(34) + Blank(true);
    assert Join(ps, '|') == "34";
    PiecesOfMasks(ps, [34]);
  }

  lemma Parse42()
    ensures ParsesTo("42", [42])
  {
    var ps := ["42"];
    assert ps[0] == Blank(true) + DecimalString(42) + Blank(true);
    assert Join(ps, '|') == "42";
    PiecesOfMasks(ps, [42]);
  }

  lemma Parse36()
    ensures ParsesTo("36", [36])
  {
    var ps := ["36"];
    assert ps[0] == Blank(true) + DecimalString(36) + Blank(true);
    assert Join(ps, '|') == "36";
    PiecesOfMasks(ps, [36]);
  }

  lemma Parse96()
    ensures ParsesTo("96", [96])
  {
    var ps := ["96"];
    assert ps[0] == Blank(true) + DecimalString(96) + Blank(true);
    assert Join(ps, '|') == "96";
    PiecesOfMasks(ps, [96]);
  }

  lemma Parse32Or16()
    ensures ParsesTo("32 | 16", [32, 16])
  {
    var ps := ["32 ", " 16"];
    assert ps[0] == Blank(true) + DecimalString(32) + Blank(false);
    assert ps[1] == Blank(false) + DecimalString(16) + Blank(true);
    assert Join(ps, '|') == "32 | 16";
    PiecesOfMasks(ps, [32, 16]);
  }

  lemma Parse32Or2()
    ensures ParsesTo("32 | 2", [32, 2])
  {
    var ps := ["32 ", " 2"];
    assert ps[0] == Blank(true) + DecimalString(32) + Blank(false);
    assert ps[1] == Blank(false) + DecimalString(2) + Blank(true);
    assert Join(ps, '|') == "32 | 2";
    PiecesOfMasks(ps, [32, 2]);
  }

  lemma Parse32Or4Or64()
    ensures ParsesTo("32 | 4 | 64", [32, 4, 64])
  {
    var ps := ["32 ", " 4 ", " 64"];
    assert ps[0] == Blank(true) + DecimalString(32) + Blank(false);
    assert ps[1] == Blank(false) + DecimalString(4) + Blank(false);
    assert ps[2] == Blank(false) + DecimalString(64) + Blank(true);
    assert Join(ps, '|') == "32 | 4 | 64";
    PiecesOfMasks(ps, [32, 4, 64]);
  }

  lemma Parse32Or8()
    ensures ParsesTo("32 | 8", [32, 8])
  {
    var ps := ["32 ", " 8"];
    assert ps[0] == Blank(true) + DecimalString(32) + Blank(false);
    assert ps[1] == Blank(false) + DecimalString(8) + Blank(true);
    assert Join(ps, '|') == "32 | 8";
    PiecesOfMasks(ps, [32, 8]);
  }

  lemma Parse126Or42Or34Or36Or96()
    ensures ParsesTo("126 | 42 | 34 | 36 | 96", [126, 42, 34, 36, 96])
  {
    var ps := ["126 ", " 42 ", " 34 ", " 36 ", " 96"];
    AuthorisationPieces(ps);
    PiecesOfMasks(ps, [126, 42, 34, 36, 96]);
  }

  /** The five pieces of the authorisation item's string. */
  lemma AuthorisationPieces(ps: seq<string>)
    requires ps == ["126 ", " 42 ", " 34 ", " 36 ", " 96"]
    ensures Join(ps, '|') == "126 | 42 | 34 | 36 | 96"
    ensures ps[0] == Blank(true) + DecimalString(126) + Blank(false)
    ensures ps[1] == Blank(false) + DecimalString(42) + Blank(false)
    ensures ps[2] == Blank(false) + DecimalString(34) + Blank(false)
    ensures ps[3] == Blank(false) + DecimalString(36) + Blank(false)
    ensures ps[4] == Blank(false) + DecimalString(96) + Blank(true)
  {
    AuthorisationJoin(ps);
    InnerPiece(ps[1], 42);
    InnerPiece(ps[2], 34);
    InnerPiece(ps[3], 36);
    assert DecimalString(126) == "126";
    assert DecimalString(96) == "96";
  }

  lemma AuthorisationJoin(ps: seq<string>)
    requires ps == ["126 ", " 42 ", " 34 ", " 36 ", " 96"]
    ensures Join(ps, '|') == "126 | 42 | 34 | 36 | 96"
  {
    var t4 := [" 96"];
    var t3 := [" 36 "] + t4;
    JoinCons(" 36 ", t4, '|');
    var t2 := [" 34 "] + t3;
    JoinCons(" 34 ", t3, '|');
    var t1 := [" 42 "] + t2;
    JoinCons(" 42 ", t2, '|');
    JoinCons("126 ", t1, '|');
    assert ps == ["126 "] + t1;
  }

  lemma JoinCons(p: string, rest: seq<string>, sep: char)
    requires |rest| >= 1
    ensures Join([p] + rest, sep) == p + [sep] + Join(rest, sep)
  {
    assert ([p] + rest)[1..] == rest;
  }

  /** A two-digit mask between two blanks. */
  lemma InnerPiece(p: string, n: nat)
    requires 10 <= n < 100 && p == [' ', DigitChar(n / 10), DigitChar(n % 10), ' ']
    ensures p == Blank(false) + DecimalString(n) + Blank(false)
  {
    assert DecimalString(n) == [DigitChar(n / 10), DigitChar(n % 10)];
  }

  /** A user holding exactly the role's mask passes `required`. */
  predicate Passes(r: Role, required: string) {
    HasPermission(Int(RoleMask(r)), required)
  }

  /** A mask passes a required string one of whose small masks lies
      within it. */
  lemma GrantedBy(m: nat, required: string, masks: seq<nat>, i: nat)
    requires ParsesTo(required, masks)
    requires m < TWO_31 && i < |masks| && masks[i] < TWO_31 && BitsWithin(masks[i], m)
    ensures HasPermission(Int(m), required)
  {
    var pieces := RequiredPieces(required);
    HasPermissionIff(Int(m), required);
    PieceMatchesSmall(m, masks[i]);
    assert pieces[i] in pieces;
  }

  /** Against a single small mask, the super admin always passes and any
      other role exactly when the mask is within its own. */
  lemma PassesSingle(r: Role, required: string, n: nat)
    requires ParsesTo(required, [n]) && n < TWO_31
    ensures Passes(r, required) <==> r == SuperAdmin || BitsWithin(n, RoleMask(r))
  {
    RoleMaskBounded(r);
    SingleMaskPasses(RoleMask(r), required, n);
    assert RoleMask(r) == FULL_ACCESS <==> r == SuperAdmin;
  }

  /** Against a single small mask, a mask passes exactly when it is 127 or
      holds every bit of the single mask. */
  lemma SingleMaskPasses(m: nat, required: string, n: nat)
    requires ParsesTo(required, [n]) && n < TWO_31 && m < TWO_31
    ensures HasPermission(Int(m), required) <==> m == FULL_ACCESS || BitsWithin(n, m)
  {
    var pieces := RequiredPieces(required);
    assert pieces == [Int(n)];
    HasPermissionIff(Int(m), required);
    PieceMatchesSmall(m, n);
  }

  lemma RolesHolding127()
    ensures forall r :: BitsWithin(127, RoleMask(r)) <==> r in {SuperAdmin}
  {
    assert BitsWithin(127, 127) && !BitsWithin(127, 42) && !BitsWithin(127, 34);
    assert !BitsWithin(127, 36) && !BitsWithin(127, 96) && !BitsWithin(127, 126);
  }

  /** The roles that pass `'127'`: the super admin alone. */
  lemma RolesPassingAccountItems(required: string)
    requires ParsesTo(required, [127])
    ensures forall r :: Passes(r, required) <==> r == SuperAdmin
  {
    RolesHolding127();
    forall r ensures Passes(r, required) <==> r == SuperAdmin {
      PassesSingle(r, required, 127);
    }
  }

  lemma RolesHolding34()
    ensures forall r :: BitsWithin(34, RoleMask(r)) <==> r in {SuperAdmin, GeneralAdmin, StockAdmin, ManageGeneralAdmin}
  {
    assert BitsWithin(34, 127) && BitsWithin(34, 42) && BitsWithin(34, 34);
    assert !BitsWithin(34, 36) && !BitsWithin(34, 96) && BitsWithin(34, 126);
  }

  /** The roles that pass `'34'`. */
  lemma RolesPassingStockItems(required: string)
    requires ParsesTo(required, [34])
    ensures forall r :: Passes(r, required) <==> r in {SuperAdmin, GeneralAdmin, StockAdmin, ManageGeneralAdmin}
  {
    RolesHolding34();
    forall r ensures Passes(r, required) <==> r in {SuperAdmin, GeneralAdmin, StockAdmin, ManageGeneralAdmin} {
      PassesSingle(r, required, 34);
    }
  }

  lemma RolesHolding42()
    ensures forall r :: BitsWithin(42, RoleMask(r)) <==> r in {SuperAdmin, GeneralAdmin, ManageGeneralAdmin}
  {
    assert BitsWithin(42, 127) && BitsWithin(42, 42) && !BitsWithin(42, 34);
    assert !BitsWithin(42, 36) && !BitsWithin(42, 96) && BitsWithin(42, 126);
  }

  /** The roles that pass `'42'`. */
  lemma RolesPassingGeneralItems(required: string)
    requires ParsesTo(required, [42])
    ensures forall r :: Passes(r, required) <==> r in {SuperAdmin, GeneralAdmin, ManageGeneralAdmin}
  {
    RolesHolding42();
    forall r ensures Passes(r, required) <==> r in {SuperAdmin, GeneralAdmin, ManageGeneralAdmin} {
      PassesSingle(r, required, 42);
    }
  }

  lemma RolesHolding36()
    ensures forall r :: BitsWithin(36, RoleMask(r)) <==> r in {SuperAdmin, OrderAdmin, ManageGeneralAdmin}
  {
    assert BitsWithin(36, 127) && !BitsWithin(36, 42) && !BitsWithin(36, 34);
    assert BitsWithin(36, 36) && !BitsWithin(36, 96) && BitsWithin(36, 126);
  }

  /** The roles that pass `'36'`. */
  lemma RolesPassingOrderItems(required: string)
    requires ParsesTo(required, [36])
    ensures forall r :: Passes(r, required) <==> r in {SuperAdmin, OrderAdmin, ManageGeneralAdmin}
  {
    RolesHolding36();
    forall r ensures Passes(r, required) <==> r in {SuperAdmin, OrderAdmin, ManageGeneralAdmin} {
      PassesSingle(r, required, 36);
    }
  }

  lemma RolesHolding96()
    ensures forall r :: BitsWithin(96, RoleMask(r)) <==> r in {SuperAdmin, DeliveryAdmin, ManageGeneralAdmin}
  {
    assert BitsWithin(96, 127) && !BitsWithin(96, 42) && !BitsWithin(96, 34);
    assert !BitsWithin(96, 36) && BitsWithin(96, 96) && BitsWithin(96, 126);
  }

  /** The roles that pass `'96'`. */
  lemma RolesPassingDeliveryItems(required: string)
    requires ParsesTo(required, [96])
    ensures forall r :: Passes(r, required) <==> r in {SuperAdmin, DeliveryAdmin, ManageGeneralAdmin}
  {
    RolesHolding96();
    forall r ensures Passes(r, required) <==> r in {SuperAdmin, DeliveryAdmin, ManageGeneralAdmin} {
      PassesSingle(r, required, 96);
    }
  }

  /** Every role holds the dashboard bit, so every role passes a
      required string whose first alternative is `32`, as each module's
      own string is. */
  lemma RolesPassingModule(required: string, masks: seq<nat>)
    requires ParsesTo(required, masks) && |masks| > 0 && masks[0] == 32
    ensures forall r :: Passes(r, required)
  {
    DashboardWithinEveryRole();
    forall r ensures Passes(r, required) {
      RoleMaskBounded(r);
      GrantedBy(RoleMask(r), required, masks, 0);
    }
  }

  lemma RoleMaskBounded(r: Role)
    ensures RoleMask(r) <= FULL_ACCESS
  {
  }

  lemma DashboardWithinEveryRole()
    ensures forall r :: BitsWithin(32, RoleMask(r))
  {
    assert BitsWithin(32, 42) && BitsWithin(32, 34) && BitsWithin(32, 36);
    assert BitsWithin(32, 96) && BitsWithin(32, 126) && BitsWithin(32, 127);
  }

  /** Every role passes `'126 | 42 | 34 | 36 | 96'`, one alternative per
      role. */
  lemma RolesPassingAuthorisationItem(required: string)
    requires ParsesTo(required, [126, 42, 34, 36, 96])
    ensures forall r :: Passes(r, required)
  {
    EachRoleListed(required, [126, 42, 34, 36, 96]);
  }

  /** A required string whose alternatives are the five masks below lists
      the mask of every role but the super admin. */
  lemma EachRoleListed(required: string, masks: seq<nat>)
    requires ParsesTo(required, masks) && |masks| == 5
    requires masks[0] == 126 && masks[1] == 42 && masks[2] == 34 && masks[3] == 36 && masks[4] == 96
    ensures forall r :: Passes(r, required)
  {
    forall r ensures Passes(r, required) {
      var i := match r
        case SuperAdmin => 0
        case ManageGeneralAdmin => 0
        case GeneralAdmin => 1
        case StockAdmin => 2
        case OrderAdmin => 3
        case DeliveryAdmin => 4;
      OwnMaskGranted(r, required, masks, i);
    }
  }

  /** A role passes a required string that lists its own mask, or any mask
      when it is the super admin. */
  lemma OwnMaskGranted(r: Role, required: string, masks: seq<nat>, i: nat)
    requires ParsesTo(required, masks) && i < |masks| && masks[i] < TWO_31
    requires masks[i] == RoleMask(r) || r == SuperAdmin
    ensures Passes(r, required)
  {
    if r != SuperAdmin {
      RoleMaskBounded(r);
      WithinSelf(RoleMask(r));
      GrantedBy(RoleMask(r), required, masks, i);
    }
  }

  lemma {:induction false} WithinSelf(m: nat)
    ensures BitsWithin(m, m)
  {
    if m != 0 {
      WithinSelf(m / 2);
    }
  }

  /** Who passes module `'1'` and each of its items. */
  lemma ModuleOneAccess()
    ensures forall r :: Passes(r, MODULE_PERMISSIONS["1"].moduleLevel)
    ensures forall r :: Passes(r, MODULE_PERMISSIONS["1"].items["1-1"]) <==> r == SuperAdmin
    ensures forall r :: Passes(r, MODULE_PERMISSIONS["1"].items["1-2"]) <==> r == SuperAdmin
    ensures forall r :: Passes(r, MODULE_PERMISSIONS["1"].items["1-3"])
  {
    var m := MODULE_PERMISSIONS["1"];
    Parse32Or16();
    assert m.moduleLevel == "32 | 16";
    RolesPassingModule(m.moduleLevel, [32, 16]);
    Parse127();
    assert m.items["1-1"] == "127";
    RolesPassingAccountItems(m.items["1-1"]);
    assert m.items["1-2"] == "127";
    RolesPassingAccountItems(m.items["1-2"]);
    AuthorisationItemAccess();
  }

  /** Every role passes item `'1-3'`. */
  lemma AuthorisationItemAccess()
    ensures forall r :: Passes(r, MODULE_PERMISSIONS["1"].items["1-3"])
  {
    assert MODULE_PERMISSIONS["1"].items["1-3"] == "126 | 42 | 34 | 36 | 96";
    Parse126Or42Or34Or36Or96();
    RolesPassingAuthorisationItem("126 | 42 | 34 | 36 | 96");
  }

  /** Who passes module `'2'` and each of its items. */
  lemma ModuleTwoAccess()
    ensures forall r :: Passes(r, MODULE_PERMISSIONS["2"].moduleLevel)
    ensures forall r :: Passes(r, MODULE_PERMISSIONS["2"].items["2-1"]) <==> r in {SuperAdmin, GeneralAdmin, StockAdmin, ManageGeneralAdmin}
    ensures forall r :: Passes(r, MODULE_PERMISSIONS["2"].items["2-2"]) <==> r in {SuperAdmin, GeneralAdmin, ManageGeneralAdmin}
    ensures forall r :: Passes(r, MODULE_PERMISSIONS["2"].items["2-3"]) <==> r in {SuperAdmin, GeneralAdmin, StockAdmin, ManageGeneralAdmin}
    ensures forall r :: Passes(r, MODULE_PERMISSIONS["2"].items["2-4"]) <==> r in {SuperAdmin, GeneralAdmin, StockAdmin, ManageGeneralAdmin}
  {
    var m := MODULE_PERMISSIONS["2"];
    Parse32Or2();
    assert m.moduleLevel == "32 | 2";
    RolesPassingModule(m.moduleLevel, [32, 2]);
    Parse34();
    assert m.items["2-1"] == "34";
    RolesPassingStockItems(m.items["2-1"]);
    Parse42();
    assert m.items["2-2"] == "42";
    RolesPassingGeneralItems(m.items["2-2"]);
    assert m.items["2-3"] == "34";
    RolesPassingStockItems(m.items["2-3"]);
    assert m.items["2-4"] == "34";
    RolesPassingStockItems(m.items["2-4"]);
  }

  /** Who passes module `'3'` and each of its items. */
  lemma ModuleThreeAccess()
    ensures forall r :: Passes(r, MODULE_PERMISSIONS["3"].moduleLevel)
    ensures forall r :: Passes(r, MODULE_PERMISSIONS["3"].items["3-1"]) <==> r in {SuperAdmin, OrderAdmin, ManageGeneralAdmin}
    ensures forall r :: Passes(r, MODULE_PERMISSIONS["3"].items["3-2"]) <==> r in {SuperAdmin, DeliveryAdmin, ManageGeneralAdmin}
    ensures forall r :: Passes(r, MODULE_PERMISSIONS["3"].items["3-3"]) <==> r in {SuperAdmin, OrderAdmin, ManageGeneralAdmin}
  {
    var m := MODULE_PERMISSIONS["3"];
    Parse32Or4Or64();
    assert m.moduleLevel == "32 | 4 | 64";
    RolesPassingModule(m.moduleLevel, [32, 4, 64]);
    Parse36();
    assert m.items["3-1"] == "36";
    RolesPassingOrderItems(m.items["3-1"]);
    Parse96();
    assert m.items["3-2"] == "96";
    RolesPassingDeliveryItems(m.items["3-2"]);
    assert m.items["3-3"] == "36";
    RolesPassingOrderItems(m.items["3-3"]);
  }

  /** Who passes module `'4'` and each of its items. */
  lemma ModuleFourAccess()
    ensures forall r :: Passes(r, MODULE_PERMISSIONS["4"].moduleLevel)
    ensures forall r :: Passes(r, MODULE_PERMISSIONS["4"].items["4-1"]) <==> r in {SuperAdmin, GeneralAdmin, ManageGeneralAdmin}
    ensures forall r :: Passes(r, MODULE_PERMISSIONS["4"].items["4-2"]) <==> r in {SuperAdmin, GeneralAdmin, ManageGeneralAdmin}
    ensures forall r :: Passes(r, MODULE_PERMISSIONS["4"].items["4-3"]) <==> r in {SuperAdmin, GeneralAdmin, ManageGeneralAdmin}
    ensures forall r :: Passes(r, MODULE_PERMISSIONS["4"].items["4-4"]) <==> r in {SuperAdmin, GeneralAdmin, ManageGeneralAdmin}
  {
    var m := MODULE_PERMISSIONS["4"];
    Parse32Or8();
    assert m.moduleLevel == "32 | 8";
    RolesPassingModule(m.moduleLevel, [32, 8]);
    Parse42();
    assert m.items["4-1"] == "42";
    RolesPassingGeneralItems(m.items["4-1"]);
    assert m.items["4-2"] == "42";
    RolesPassingGeneralItems(m.items["4-2"]);
    assert m.items["4-3"] == "42";
    RolesPassingGeneralItems(m.items["4-3"]);
    assert m.items["4-4"] == "42";
    RolesPassingGeneralItems(m.items["4-4"]);
  }

  // ---------------------------------------------------------------------
  // the session store (`authStore`)

  const TOKEN_KEY: string := "token"
  const REFRESH_TOKEN_KEY: string := "refreshToken"

  /** What the store's three state fields hold. */
  datatype AuthState = AuthState(permissions: Num, token: string, refreshToken: string)

  /** `localStorage.getItem(key) || ''`. */
  function StoredOrEmpty(items: map<string, string>, key: string): (r: string)
    ensures key in items ==> r == items[key]
    ensures key !in items ==> r == ""
  {
    match Lookup(items, key)
    case None => ""
    case Some(v) => v
  }

  /** The state as the store builds it when the page loads. */
  function LoadedState(items: map<string, string>): AuthState {
    AuthState(Int(0), StoredOrEmpty(items, TOKEN_KEY), StoredOrEmpty(items, REFRESH_TOKEN_KEY))
  }

  /** Storage after `SET_TOKEN`'s two `setItem` calls. */
  function StoreTokens(items: map<string, string>, accessToken: string, refreshToken: string)
    : (r: map<string, string>)
    ensures r.Keys == items.Keys + {TOKEN_KEY, REFRESH_TOKEN_KEY}
    ensures r[TOKEN_KEY] == accessToken && r[REFRESH_TOKEN_KEY] == refreshToken
    ensures forall k | k in items && k != TOKEN_KEY && k != REFRESH_TOKEN_KEY :: r[k] == items[k]
  {
    items[TOKEN_KEY := accessToken][REFRESH_TOKEN_KEY := refreshToken]
  }

  /** Storage after `CLEAR_AUTH`'s two `removeItem` calls. */
  function RemoveTokens(items: map<string, string>): (r: map<string, string>)
    ensures r.Keys == items.Keys - {TOKEN_KEY, REFRESH_TOKEN_KEY}
    ensures forall k | k in r :: r[k] == items[k]
  {
    items - {TOKEN_KEY} - {REFRESH_TOKEN_KEY}
  }

  /** Permissions are never written to storage: reloading after a login
      brings back the tokens and a mask of 0. */
  lemma ReloadKeepsTokensNotMask(items: map<string, string>, accessToken: string, refreshToken: string)
    ensures LoadedState(StoreTokens(items, accessToken, refreshToken))
            == AuthState(Int(0), accessToken, refreshToken)
  {
  }

  /** Reloading after `CLEAR_AUTH` gives the cleared state. */
  lemma ReloadAfterClear(items: map<string, string>)
    ensures LoadedState(RemoveTokens(items)) == AuthState(Int(0), "", "")
  {
  }

  /** Clearing twice removes no more than clearing once, and clearing
      after a login leaves storage as clearing before it would. */
  lemma RemoveTokensIdempotent(items: map<string, string>, accessToken: string, refreshToken: string)
    ensures RemoveTokens(RemoveTokens(items)) == RemoveTokens(items)
    ensures RemoveTokens(StoreTokens(items, accessToken, refreshToken)) == RemoveTokens(items)
  {
  }

  /** The response that `loginSuccess` receives in this store: the payload
      sits under `data`. */
  datatype LoginPayload = LoginPayload(permissions: string, accessToken: string, refreshToken: string)
  datatype AxiosResponse = AxiosResponse(data: LoginPayload)

  /** `authStore`: its state, mutations and actions. */
  class AuthStore {
    var permissions: Num
    var token: string
    var refreshToken: string
    const storage: LocalStorage

    function State(): AuthState
      reads this
    {
      AuthState(permissions, token, refreshToken)
    }

    /** The tokens in the state are those in storage (or empty when absent). */
    ghost predicate Synced()
      reads this, storage
    {
      token == StoredOrEmpty(storage.items, TOKEN_KEY)
      && refreshToken == StoredOrEmpty(storage.items, REFRESH_TOKEN_KEY)
    }

    /** The initial `state`, read when the module loads. */
    constructor (storage: LocalStorage)
      ensures this.storage == storage
      ensures State() == LoadedState(storage.items)
      ensures Synced()
    {
      this.storage := storage;
      permissions := Int(0);
      var t := storage.GetItem(TOKEN_KEY);
      var r := storage.GetItem(REFRESH_TOKEN_KEY);
      token := if t.Some? then t.value else "";
      refreshToken := if r.Some? then r.value else "";
    }

    /** `SET_PERMISSIONS`: stores the value it is given, nothing else. */
    method SetPermissions(value: Num)
      modifies this
      ensures State() == old(State()).(permissions := value)
      ensures old(Synced()) ==> Synced()
    {
      permissions := value;
    }

    /** `SET_TOKEN`: both tokens into the state and into storage. */
    method SetToken(accessToken: string, refreshToken: string)
      modifies this, storage
      ensures State() == old(State()).(token := accessToken, refreshToken := refreshToken)
      ensures storage.items == StoreTokens(old(storage.items), accessToken, refreshToken)
      ensures Synced()
    {
      token := accessToken;
      this.refreshToken := refreshToken;
      storage.SetItem(TOKEN_KEY, accessToken);
      storage.SetItem(REFRESH_TOKEN_KEY, refreshToken);
    }

    /** `CLEAR_AUTH`: mask to 0, tokens emptied and removed from storage. */
    method ClearAuth()
      modifies this, storage
      ensures State() == AuthState(Int(0), "", "")
      ensures storage.items == RemoveTokens(old(storage.items))
      ensures Synced()
    {
      permissions := Int(0);
      token := "";
      refreshToken := "";
      storage.RemoveItem(TOKEN_KEY);
      storage.RemoveItem(REFRESH_TOKEN_KEY);
    }

    /** The `loginSuccess` action: `SET_PERMISSIONS` with
        `parseInt(response.data.permissions)`, then `SET_TOKEN`. */
    method LoginSuccess(response: AxiosResponse)
      modifies this, storage
      ensures State() == AuthState(ParseInt(response.data.permissions),
                                   response.data.accessToken, response.data.refreshToken)
      ensures storage.items
              == StoreTokens(old(storage.items), response.data.accessToken, response.data.refreshToken)
      ensures Synced()
    {
      var payload := response.data;
      SetPermissions(ParseInt(payload.permissions));
      SetToken(payload.accessToken, payload.refreshToken);
    }

    /** The `logout` action: exactly `CLEAR_AUTH`. */
    method Logout()
      modifies this, storage
      ensures State() == AuthState(Int(0), "", "")
      ensures storage.items == RemoveTokens(old(storage.items))
      ensures Synced()
    {
      ClearAuth();
    }
  }
}
