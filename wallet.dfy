/**
 * The wallet globals of web3-utils.js (lines 2-6), which
 * frontend/web3-utils.js declares identically, and the operations that
 * change them: connecting, pointing the dashboard at another contract, and
 * disconnecting. The contract handle is represented by the address it was
 * created for; `ethers.isAddress` is a parameter of the session.
 */
module Wallet {
  import opened Chain
  import opened Identity
  import opened Dom
  import opened Views

  /** The `#userProfile` card: the connect placeholder, or a profile with its late-payment count if shown. */
  datatype ProfileCard = Placeholder | ProfileShown(latePayments: Option<nat>)

  class Session {
    /** `CONFIG.ADMIN_ADDRESS`. */
    const adminAddress: Address
    /** `ethers.isAddress`. */
    const isAddress: Address -> bool

    var userAddress: Option<Address>
    var hasSigner: bool
    var contractAddress: Address
    /** The contract handle, by the address it was built for. */
    var contract: Option<Address>
    /** `localStorage['creditScoreContractAddress']`. */
    var stored: Option<Address>
    var page: Page
    var profile: ProfileCard

    /**
     * A handle is only ever built for an address `isAddress` accepts, and
     * while a signer is present the handle is for the current contract
     * address.
     */
    ghost predicate Valid()
      reads this
    {
      !isAddress("") &&
      (contract.Some? ==> isAddress(contractAddress)) &&
      (hasSigner && contract.Some? ==> contract.value == contractAddress)
    }

    /** The page as loaded: no wallet, no signer, no contract handle yet. */
    constructor(adminAddress: Address, configAddress: Address, stored: Option<Address>,
                page: Page, isAddress: Address -> bool)
      requires !isAddress("")
      ensures Valid()
      ensures this.adminAddress == adminAddress && this.isAddress == isAddress
      ensures userAddress == None && !hasSigner && contract == None
      ensures contractAddress == configAddress && this.stored == stored
      ensures this.page == page && profile == Placeholder
    {
      this.adminAddress := adminAddress;
      this.isAddress := isAddress;
      userAddress := None;
      hasSigner := false;
      contractAddress := configAddress;
      contract := None;
      this.stored := stored;
      this.page := page;
      profile := Placeholder;
    }

    /**
     * The state `connectWallet()` leaves once the wallet has handed out
     * `account`: a user, a signer, and a handle when the contract address
     * is a non-empty valid address (the handle is otherwise kept). The
     * wallet status update then runs before `connectWallet()` returns: an
     * empty account resets the tabs; otherwise, with a handle, the refresh
     * it starts lays out the administrator's or the user's tab bar before
     * its first contract read. `withRegistry` is true for the web3-utils.js
     * copy, whose administrator layout also shows the registry button.
     */
    method Connect(account: Address, withRegistry: bool)
      requires Valid()
      modifies this
      ensures Valid()
      ensures userAddress == Some(account) && hasSigner
      ensures contract == if contractAddress != "" && isAddress(contractAddress)
                          then Some(contractAddress) else old(contract)
      ensures contractAddress == old(contractAddress) && stored == old(stored)
      ensures page == if account == "" then ResetTabs(old(page))
                      else if contract.None? then old(page)
                      else if IsAdmin(userAddress, adminAddress) then AdminLayout(old(page), withRegistry)
                      else UserLayout(old(page))
      ensures profile == old(profile)
    {
      userAddress := Some(account);
      hasSigner := true;
      if contractAddress != "" && isAddress(contractAddress) {
        contract := Some(contractAddress);
      }
      if account == "" {
        page := ResetTabs(page);
      } else if contract.Some? {
        if IsAdmin(userAddress, adminAddress) {
          page := AdminLayout(page, withRegistry);
        } else {
          page := UserLayout(page);
        }
      }
    }

    /**
     * `setContractAddress(newAddress)`: an invalid address changes nothing
     * and answers false; a valid one becomes the contract address, is
     * remembered in local storage, re-targets the handle when a signer is
     * present, and answers true.
     */
    method SetContractAddress(newAddress: Address) returns (ok: bool)
      requires Valid()
      modifies this
      ensures Valid()
      ensures ok == isAddress(newAddress)
      ensures !ok ==> contractAddress == old(contractAddress) && stored == old(stored) &&
                      contract == old(contract)
      ensures ok ==> contractAddress == newAddress && stored == Some(newAddress) &&
                     contract == if hasSigner then Some(newAddress) else old(contract)
      ensures userAddress == old(userAddress) && hasSigner == old(hasSigner)
      ensures page == old(page) && profile == old(profile)
    {
      if !isAddress(newAddress) {
        return false;
      }
      contractAddress := newAddress;
      stored := Some(newAddress);
      if hasSigner {
        contract := Some(newAddress);
      }
      return true;
    }

    /**
     * `disconnectWallet()`: user and signer dropped; the wallet status
     * update resets the tabs, the data is cleared and the tabs are reset
     * once more. The contract handle is kept.
     */
    method Disconnect()
      requires Valid()
      modifies this
      ensures Valid()
      ensures userAddress == None && !hasSigner && !IsAdmin(userAddress, adminAddress)
      ensures page == ClearAllData(ResetTabs(old(page)))
      ensures profile == Placeholder
      ensures contract == old(contract) && contractAddress == old(contractAddress) && stored == old(stored)
    {
      userAddress := None;
      hasSigner := false;
      page := ResetTabs(page);
      page := ClearAllData(page);
      profile := Placeholder;
      page := ResetTabs(page);
      ResetTabsIdempotent(old(page));
      ClearAllDataCommutes(ResetTabs(old(page)));
    }
  }
}
