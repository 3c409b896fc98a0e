// src/contracts/contractMigrations.ts: the vault's two version bumps, as an instance
// of the migration toolkit.
module VaultMigrations {
  import opened Wrappers
  import opened Migrations
  import opened MigrationRunner

  // A vault state with the fields some version knows; schemas ignore the others.
  datatype VaultState = VaultState(
    totalAssets: int,
    totalSupply: int,
    apy: Option<int>,
    lockPeriod: Option<int>,
    feeBps: Option<int>)

  const V1ToV2 := Step("vault-v1-to-v2", "v1", "v2")
  const V2ToV3 := Step("vault-v2-to-v3", "v2", "v3")

  predicate NotNegative(x: Option<int>) {
    x.Some? && x.value >= 0
  }

  predicate Accepts(contractId: string, version: string, s: VaultState) {
    contractId == "Vault" ==>
      && (version in ["v1", "v2", "v3"] ==> s.totalAssets >= 0 && s.totalSupply >= 0)
      && (version in ["v2", "v3"] ==> NotNegative(s.apy) && NotNegative(s.lockPeriod))
      && (version == "v3" ==> NotNegative(s.feeBps) && s.feeBps.value <= 10_000)
  }

  // Every schema asks for what the one before asks for, and v3 for a fee of at most
  // 10000 basis points.
  lemma SchemasNest(s: VaultState)
    ensures Accepts("Vault", "v3", s) ==> Accepts("Vault", "v2", s)
    ensures Accepts("Vault", "v2", s) ==> Accepts("Vault", "v1", s)
    ensures Accepts("Vault", "v1", s) <==> s.totalAssets >= 0 && s.totalSupply >= 0
    ensures Accepts("Vault", "v2", s) && s.feeBps == Some(10_000) ==> Accepts("Vault", "v3", s)
    ensures s.feeBps == Some(10_001) || s.feeBps == None ==> !Accepts("Vault", "v3", s)
  {
  }

  function Migrate(step: Step, s: VaultState, ctx: Context): Result<VaultState, Thrown> {
    if step == V1ToV2 then Ok(s.(apy := Some(0), lockPeriod := Some(0)))
    else if step == V2ToV3 then Ok(s.(feeBps := Some(0)))
    else Err(Thrown(true))
  }

  function Rollback(step: Step, s: VaultState, ctx: Context): Result<VaultState, Thrown> {
    if step == V1ToV2 then Ok(s.(apy := None, lockPeriod := None))
    else if step == V2ToV3 then Ok(s.(feeBps := None))
    else Err(Thrown(true))
  }

  function Vault(): Behaviour<VaultState> {
    Behaviour((st, s, c) => Migrate(st, s, c), st => st in [V1ToV2, V2ToV3], (st, s, c) => Rollback(st, s, c),
              (c, v, s) => Accepts(c, v, s))
  }

  // A bump is undone exactly when the state did not already carry the fields it adds.
  lemma VaultStepsUndoIff(s: VaultState, ctx: Context)
    requires ctx.contractId == "Vault" && Accepts("Vault", "v1", s)
    ensures UndoesFrom(Vault(), V1ToV2, s, ctx, true) <==> s.apy.None? && s.lockPeriod.None?
    ensures Accepts("Vault", "v2", s) ==> (UndoesFrom(Vault(), V2ToV3, s, ctx, true) <==> s.feeBps.None?)
  {
  }

  // A v1 vault, and a step nobody registered, which fails.
  function PlainVault(assets: nat, supply: nat): VaultState {
    VaultState(assets, supply, None, None, None)
  }

  const ToV4 := Step("vault-v3-to-v4", "v3", "v4")

  lemma VaultForward(s: VaultState, ctx: Context)
    requires ctx == Context("Vault", false) && s.totalAssets >= 0 && s.totalSupply >= 0
    requires s == VaultState(s.totalAssets, s.totalSupply, None, None, None)
    ensures
      var s2 := s.(apy := Some(0), lockPeriod := Some(0));
      var s3 := s2.(feeBps := Some(0));
      && Forward(Vault(), [V1ToV2], s, ctx, true) == Forwarded(1, s2, None)
      && Forward(Vault(), [V1ToV2, V2ToV3], s, ctx, true) == Forwarded(2, s3, None)
      && Forward(Vault(), [V1ToV2, V2ToV3] + [ToV4], s, ctx, true) == Forwarded(2, s3, Some(Thrown(true)))
  {
    var b := Vault();
    var s2 := s.(apy := Some(0), lockPeriod := Some(0));
    var s3 := s2.(feeBps := Some(0));
    assert Forward(b, [], s2, ctx, true) == Forwarded(0, s2, None);
    assert Forward(b, [], s3, ctx, true) == Forwarded(0, s3, None);
    assert Forward(b, [V2ToV3], s2, ctx, true) == Forwarded(1, s3, None);
    assert [V1ToV2, V2ToV3][1..] == [V2ToV3] && [V1ToV2][1..] == [] && [V2ToV3, ToV4][1..] == [ToV4];
    assert Forward(b, [ToV4], s3, ctx, true) == Forwarded(0, s3, Some(Thrown(true)));
    assert Forward(b, [V2ToV3, ToV4], s2, ctx, true) == Forwarded(1, s3, Some(Thrown(true)));
    assert ([V1ToV2, V2ToV3] + [ToV4])[1..] == [V2ToV3, ToV4];
  }

  // Migrating a plain v1 vault to v3 and failing in a further step rolls all the
  // way back; without the further step it ends as a v3 state with zero defaults.
  lemma VaultRuns(assets: nat, supply: nat)
    ensures
      var options := Options(false, true, true);
      var s := PlainVault(assets, supply);
      var plan := Plan("Vault", "v1", "v3", [V1ToV2, V2ToV3]);
      var longer := Plan("Vault", "v1", "v4", [V1ToV2, V2ToV3] + [ToV4]);
      && FinalStatus(Vault(), plan, s, options) == Completed
      && Returned(Vault(), plan, s, options) == VaultState(assets, supply, Some(0), Some(0), Some(0))
      && FinalStatus(Vault(), longer, s, options) == RolledBack
      && Returned(Vault(), longer, s, options) == s
  {
    var b, ctx, s := Vault(), Context("Vault", false), PlainVault(assets, supply);
    var s2 := s.(apy := Some(0), lockPeriod := Some(0));
    var steps := [V1ToV2, V2ToV3] + [ToV4];
    VaultForward(s, ctx);
    assert steps[..0] == [] && steps[..1] == [V1ToV2];
    assert StateBefore(b, steps, s, ctx, true, 0) == s;
    assert StateBefore(b, steps, s, ctx, true, 1) == s2;
    VaultStepsUndoIff(s, ctx);
    VaultStepsUndoIff(s2, ctx);
    RollbackRestoresInitialState(b, Plan("Vault", "v1", "v4", steps), s, Options(false, true, true));
  }
}
