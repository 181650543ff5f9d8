/** `verify-sdk/src/vault.ts`: the vault address the SDK computes offline is the one the factory derives on chain. */
module SdkVaults {
  import opened Layout
  import opened Soroban
  import opened Vaults
  import opened Derivation

  /** `deriveVaultAddress`, up to strkey decoding and encoding: the contract id at which `factory` deploys the vault of
      `recipient` on the network with this passphrase. */
  method DeriveVaultAddress(net: Network, passphrase: string, factory: bytes, recipient: string) returns (id: bytes)
    requires net.id == net.sha256(Ascii(passphrase))
    ensures Contract(id) == net.Derive(Contract(factory), Ascii(recipient))
  {
    hide ContractIdPreimage;
    hide Ascii;
    var salt := net.sha256(Ascii(recipient));
    id := DeriveContractId(net.sha256, passphrase, factory, salt);
  }
}
