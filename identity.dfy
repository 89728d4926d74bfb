/**
 * Who is looking at the dashboard, and how an address is shortened for
 * display. The same two helpers appear, with the same bodies, in all three
 * modelled files.
 */
module Identity {
  import opened Chain
  import opened Text

  /**
   * `isAdmin()`: a connected wallet whose address equals the configured
   * administrator address once both are lower-cased.
   */
  function IsAdmin(userAddress: Option<Address>, adminAddress: Address): (r: bool)
    ensures r ==> Truthy(userAddress) && |userAddress.value| == |adminAddress| > 0
  {
    Truthy(userAddress) && Lower(userAddress.value) == Lower(adminAddress)
  }

  /** Re-casing either address, as wallets and configs do, never changes the answer. */
  lemma IsAdminCaseInsensitive(user: Address, adminAddress: Address)
    ensures IsAdmin(Some(Upper(user)), adminAddress) == IsAdmin(Some(user), adminAddress)
    ensures IsAdmin(Some(Lower(user)), adminAddress) == IsAdmin(Some(user), adminAddress)
    ensures IsAdmin(Some(user), Upper(adminAddress)) == IsAdmin(Some(user), adminAddress)
  {
    LowerIgnoresCase(user);
    LowerIgnoresCase(adminAddress);
  }

  /** The configured administrator, connected under any casing, is the administrator. */
  lemma AdminRecognised(adminAddress: Address)
    requires adminAddress != ""
    ensures IsAdmin(Some(adminAddress), adminAddress)
    ensures IsAdmin(Some(Upper(adminAddress)), adminAddress)
  {
    IsAdminCaseInsensitive(adminAddress, adminAddress);
  }

  /** No wallet, or an empty address, is never the administrator. */
  lemma DisconnectedIsNotAdmin(adminAddress: Address)
    ensures !IsAdmin(None, adminAddress)
    ensures !IsAdmin(Some(""), adminAddress)
  {
  }

  /**
   * `formatAddress(address)`: `substring(0, 6) + '...' + substring(38)`.
   * A 42-character `0x` address keeps its first six and last four characters.
   */
  function FormatAddress(address: Address): (r: string)
    ensures |address| == 42 ==>
      |r| == 13 && r[..6] == address[..6] && r[6..9] == "..." && r[9..] == address[38..]
    ensures |address| <= 6 ==> r == address + "..."
    ensures 6 < |address| <= 38 ==> r == address[..6] + "..."
  {
    Substring(address, 0, 6) + "..." + Substring(address, 38, |address|)
  }

  /**
   * Two 42-character addresses with the same prefix and suffix display
   * alike: the shortened form identifies an address only up to its middle.
   */
  lemma FormatAddressCollides(a: Address, b: Address)
    requires |a| == |b| == 42 && a[..6] == b[..6] && a[38..] == b[38..]
    ensures FormatAddress(a) == FormatAddress(b)
  {
  }
}
