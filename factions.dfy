/** The faction list and the case-insensitive faction check (database/factions/factions.go). */
module Factions {
  import opened Text

  const AllFactions: seq<string> := [
    "Arborec", "Argent Flight", "Barony of Letnev", "Clan of Saar", "Embers of Muaat",
    "Empyrean", "Federation of Sol", "Ghosts of Creuss", "Hakann", "L1Z1X Mindnet",
    "Mahact Gene-Sorcerers", "Mentak Coalition", "Naalu Collective", "Naaz-Rokha Alliance",
    "Nekro Virus", "Nomad", "Sardakk N'orr", "Titans of Ul", "Universities of Jol-Nar",
    "Vuil'raith Cabal", "Winnu", "Xxcha Kingdom", "Yin Brotherhood", "Yssaril Tribes",
    "Council Keleres"]

  /** The linear scan of IsValidFaction from position `from` on, with its early return. */
  function FindFaction(name: string, from: nat): bool
    requires from <= |AllFactions|
    decreases |AllFactions| - from
  {
    if from == |AllFactions| then false
    else if EqualFold(AllFactions[from], name) then true
    else FindFaction(name, from + 1)
  }

  lemma {:induction false} FindFactionMeaning(name: string, from: nat)
    requires from <= |AllFactions|
    ensures FindFaction(name, from) <==> exists i :: from <= i < |AllFactions| && EqualFold(AllFactions[i], name)
    decreases |AllFactions| - from
  {
    if from < |AllFactions| {
      FindFactionMeaning(name, from + 1);
    }
  }

  /** IsValidFaction: whether the name equals some listed faction, ignoring (ASCII) case. */
  function IsValidFaction(name: string): bool
  {
    FindFaction(name, 0)
  }

  /** A name is valid exactly when it equals a listed faction up to case. */
  lemma ValidFactionMeaning(name: string)
    ensures IsValidFaction(name) <==> exists i :: 0 <= i < |AllFactions| && EqualFold(AllFactions[i], name)
  {
    FindFactionMeaning(name, 0);
  }

  /** Upper-casing a name does not change whether it is valid. */
  lemma ValidUpperCase(name: string)
    ensures IsValidFaction(ToUpper(name)) == IsValidFaction(name)
  {
    ValidFactionMeaning(name);
    ValidFactionMeaning(ToUpper(name));
    ToLowerOfToUpper(name);
  }

  /** Every listed faction begins and ends with a letter. */
  lemma FactionEnds(i: nat)
    requires i < |AllFactions|
    ensures |AllFactions[i]| > 0
    ensures IsAlnum(AllFactions[i][0]) && IsAlnum(AllFactions[i][|AllFactions[i]| - 1])
  {
  }

  /** The empty name is not a faction. */
  lemma EmptyNotValid()
    ensures !IsValidFaction("")
  {
    ValidFactionMeaning("");
    forall i | 0 <= i < |AllFactions| ensures !EqualFold(AllFactions[i], "") {
      FactionEnds(i);
      assert |ToLower(AllFactions[i])| > 0;
    }
  }

  /** There is no trimming: a name with a leading or trailing space is never valid. */
  lemma PaddedNotValid(name: string)
    requires |name| > 0 && (name[0] == ' ' || name[|name| - 1] == ' ')
    ensures !IsValidFaction(name)
  {
    ValidFactionMeaning(name);
    forall i | 0 <= i < |AllFactions| ensures !EqualFold(AllFactions[i], name) {
      FactionEnds(i);
      var f := AllFactions[i];
      if |f| == |name| {
        if name[0] == ' ' {
          assert ToLower(f)[0] != ToLower(name)[0];
        } else {
          assert ToLower(f)[|f| - 1] != ToLower(name)[|name| - 1];
        }
      }
    }
  }
}
