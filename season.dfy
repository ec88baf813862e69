/** The season label and output file name the driver derives from the name
    of each roster PDF (parse_roster_pdfs.py:210-212). */
module Season {
  import opened Text

  /** "2025" for a file whose name mentions 2025; every other file is taken
      to be a 2024 roster. */
  function SeasonOf(fileName: string): (season: string)
    ensures season == "2025" <==> Contains(fileName, "2025")
    ensures season == "2025" || season == "2024"
  {
    if Contains(fileName, "2025") then "2025" else "2024"
  }

  /** The name of the CSV file a season's records are written to. */
  function OutputName(season: string): (name: string)
    ensures |name| == |season| + |"_roster_profiles_parsed.csv"|
    ensures name[..|season|] == season
    ensures name[|season|..] == "_roster_profiles_parsed.csv"
  {
    season + "_roster_profiles_parsed.csv"
  }

  /** The two seasons write to different files, and files of the same season
      write to the same one (the later file's CSV replaces the earlier). */
  lemma OutputPerSeason(a: string, b: string)
    ensures OutputName(SeasonOf(a)) == OutputName(SeasonOf(b)) <==>
            (Contains(a, "2025") <==> Contains(b, "2025"))
  {
    var sa, sb := SeasonOf(a), SeasonOf(b);
    if sa != sb {
      assert OutputName(sa)[..4] == sa && OutputName(sb)[..4] == sb;
    }
  }

  /** A file whose name holds no "5" at all, such as a 2023 roster, is
      labelled 2024. */
  lemma NoFiveIs2024(fileName: string)
    requires '5' !in fileName
    ensures SeasonOf(fileName) == "2024"
  {
    MissingCharNotContained(fileName, "2025", '5');
  }
}
