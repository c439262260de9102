/**
 * The column lists of utils/cleaning.py's clean_irve: the columns it keeps
 * from the raw file, the columns it moves to the front, and the names it
 * computes itself, with the facts about them the cleaning proofs rely on.
 */
module Columns {
  import opened Seqs

  /** The columns clean_irve keeps when they exist, in this order. */
  const COLS: seq<string> := [
    "id_station", "id_pdc", "nom_station",
    "adresse_station", "code_postal", "nom_commune",
    "code_departement", "nom_departement", "code_region", "nom_region",
    "latitude", "longitude",
    "consolidated_longitude", "consolidated_latitude", "consolidated_lagitude",
    "accessibilite", "conditions_acces", "horaires", "reservation", "modalites_paiement",
    "etat_pdc", "statut_pdc", "date_maj", "date_mise_en_service",
    "puissance_nominale", "type_prise", "connecteur", "format_recharge", "type_charge",
    "nb_points_charge",
    "operateur", "nom_operateur", "enseigne", "reseau", "proprietaire",
    "source", "last_update",
    "code_insee_commune",
    "departement"
  ]

  /** The columns moved to the front, in this order, when they exist. */
  const FRONT: seq<string> := [
    "id_station", "id_pdc", "nom_station",
    "adresse_station", "code_postal", "nom_commune",
    "code_departement", "nom_departement", "code_region", "nom_region",
    "latitude", "longitude",
    "puissance_kw", "categorie_puissance", "is_dc",
    "access_24_7", "est_publique", "statut_normalise",
    "operateur", "enseigne", "reseau",
    "date_maj", "date_mise_en_service"
  ]

  /** The listed names are distinct, checked a few positions at a time. */
  lemma ColsDistinctA()
    ensures forall i, j :: 0 <= i < 3 && i < j < |COLS| ==> COLS[i] != COLS[j]
  {
    ColsDistinctFirst(0);
    ColsDistinctFirst(1);
    ColsDistinctFirst(2);
  }

  lemma ColsDistinctFirst(i: nat)
    requires i < 3
    ensures forall j :: i < j < |COLS| ==> COLS[i] != COLS[j]
  {
  }

  lemma ColsDistinctA2()
    ensures forall i, j :: 3 <= i < 8 && i < j < |COLS| ==> COLS[i] != COLS[j]
  {
  }

  lemma ColsDistinctB()
    ensures forall i, j :: 8 <= i < 16 && i < j < |COLS| ==> COLS[i] != COLS[j]
  {
  }

  lemma ColsDistinctC()
    ensures forall i, j :: 16 <= i < 25 && i < j < |COLS| ==> COLS[i] != COLS[j]
  {
  }

  lemma ColsDistinctD()
    ensures forall i, j :: 25 <= i && i < j < |COLS| ==> COLS[i] != COLS[j]
  {
  }

  lemma ColsHaveNoDuplicates()
    ensures NoDup(COLS)
  {
    ColsDistinctA();
    ColsDistinctA2();
    ColsDistinctB();
    ColsDistinctC();
    ColsDistinctD();
    NoDupPairwise(COLS);
  }

  lemma FrontDistinct()
    ensures forall i, j :: 0 <= i < j < |FRONT| ==> FRONT[i] != FRONT[j]
  {
  }

  lemma FrontHasNoDuplicates()
    ensures NoDup(FRONT)
  {
    FrontDistinct();
    NoDupPairwise(FRONT);
  }

  /** The names clean_irve writes itself: the coordinates it fills and the columns it computes. */
  const DERIVED_NAMES: set<string> :=
    {"latitude", "longitude", "puissance_kw", "categorie_puissance", "is_dc", "access_24_7", "est_publique", "statut_normalise"}

  /** The raw columns the derivations of clean_irve read. */
  const SOURCE_NAMES: set<string> := {
    "latitude", "longitude", "consolidated_longitude", "consolidated_latitude", "consolidated_lagitude",
    "puissance_nominale", "connecteur", "horaires", "accessibilite", "conditions_acces", "etat_pdc", "statut_pdc"
  }

  /** The columns clean_irve creates that never come from the raw file. */
  const COMPUTED_NAMES: set<string> :=
    {"puissance_kw", "categorie_puissance", "is_dc", "access_24_7", "est_publique", "statut_normalise"}

  /** No computed column is in the list of step 1, one name at a time. */
  lemma ComputedNotListed()
    ensures forall c :: c in COMPUTED_NAMES ==> c !in COLS
  {
    KwNotListed();
    CategoryNotListed();
    DcNotListed();
    AlwaysOpenNotListed();
    PublicNotListed();
    StatusNotListed();
  }

  lemma KwNotListed() ensures "puissance_kw" !in COLS {}
  lemma CategoryNotListed() ensures "categorie_puissance" !in COLS {}
  lemma DcNotListed() ensures "is_dc" !in COLS {}
  lemma AlwaysOpenNotListed() ensures "access_24_7" !in COLS {}
  lemma PublicNotListed() ensures "est_publique" !in COLS {}
  lemma StatusNotListed() ensures "statut_normalise" !in COLS {}

  /** The raw columns the derivations read are all in the list of step 1. */
  lemma SourcesListed()
    ensures forall c :: c in SOURCE_NAMES ==> c in COLS
  {
    forall c | c in SOURCE_NAMES ensures c in COLS {
      SourceListed(c);
    }
  }

  lemma SourceListed(c: string)
    requires c in SOURCE_NAMES
    ensures c in COLS
  {
    if c in {"latitude", "longitude", "consolidated_longitude", "consolidated_latitude", "consolidated_lagitude"} {
      assert COLS[10] == "latitude" && COLS[11] == "longitude";
      assert COLS[12] == "consolidated_longitude" && COLS[13] == "consolidated_latitude";
      assert COLS[14] == "consolidated_lagitude";
    } else {
      assert COLS[15] == "accessibilite" && COLS[16] == "conditions_acces";
      assert COLS[17] == "horaires" && COLS[20] == "etat_pdc" && COLS[21] == "statut_pdc";
      assert COLS[24] == "puissance_nominale" && COLS[26] == "connecteur";
    }
  }
}
