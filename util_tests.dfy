/** The examples from the test module of `util.rs`, checked against the model. */
module UtilTests {
  import opened Util

  lemma TitleCaseGettingStarted(s: string)
    requires s == "getting-started"
    ensures TitleCase(s) == "Getting Started"
  {
    GettingStartedSplits();
    TitleCaseJoin("getting", '-', "started");
    TitleCaseWord("getting");
    TitleCaseWord("started");
    GettingStartedWords();
  }

  lemma GettingStartedSplits()
    ensures "getting-started" == "getting" + ['-'] + "started"
    ensures '-' !in "getting" && '_' !in "getting" && '-' !in "started" && '_' !in "started"
  {
  }

  lemma GettingStartedWords()
    ensures Capitalize("getting") == "Getting" && Capitalize("started") == "Started"
    ensures "Getting" + " " + "Started" == "Getting Started"
  {
    CapitalizeGetting();
    CapitalizeStarted();
  }

  lemma CapitalizeGetting()
    ensures Capitalize("getting") == "Getting"
  {
  }

  lemma CapitalizeStarted()
    ensures Capitalize("started") == "Started"
  {
  }

  lemma TitleCaseApiReference(s: string)
    requires s == "api_reference"
    ensures TitleCase(s) == "Api Reference"
  {
    ApiReferenceSplits();
    TitleCaseJoin("api", '_', "reference");
    TitleCaseWord("api");
    TitleCaseWord("reference");
    ApiReferenceWords();
  }

  lemma ApiReferenceSplits()
    ensures "api_reference" == "api" + ['_'] + "reference"
    ensures '-' !in "api" && '_' !in "api" && '-' !in "reference" && '_' !in "reference"
  {
  }

  lemma ApiReferenceWords()
    ensures Capitalize("api") == "Api" && Capitalize("reference") == "Reference"
    ensures "Api" + " " + "Reference" == "Api Reference"
  {
    CapitalizeApi();
    CapitalizeReference();
  }

  lemma CapitalizeApi()
    ensures Capitalize("api") == "Api"
  {
  }

  lemma CapitalizeReference()
    ensures Capitalize("reference") == "Reference"
  {
  }

  lemma TitleCaseInstallation(s: string)
    requires s == "installation"
    ensures TitleCase(s) == "Installation"
  {
    TitleCaseWord(s);
  }

  lemma TitleCaseReadme(s: string)
    requires s == "README"
    ensures TitleCase(s) == "README"
  {
    TitleCaseWord(s);
  }

  lemma TitleCaseMyCoolFeature(s: string)
    requires s == "my-cool-feature"
    ensures TitleCase(s) == "My Cool Feature"
  {
    MyCoolFeatureSplits();
    TitleCaseJoin("my", '-', "cool" + ['-'] + "feature");
    TitleCaseJoin("cool", '-', "feature");
    TitleCaseWord("my");
    TitleCaseWord("cool");
    TitleCaseWord("feature");
    MyCoolFeatureWords();
  }

  lemma MyCoolFeatureSplits()
    ensures "my-cool-feature" == "my" + ['-'] + ("cool" + ['-'] + "feature")
    ensures '-' !in "my" && '_' !in "my" && '-' !in "cool" && '_' !in "cool"
    ensures '-' !in "feature" && '_' !in "feature"
  {
  }

  lemma MyCoolFeatureWords()
    ensures Capitalize("my") == "My" && Capitalize("cool") == "Cool" && Capitalize("feature") == "Feature"
    ensures "My" + " " + ("Cool" + " " + "Feature") == "My Cool Feature"
  {
    CapitalizeMy();
    CapitalizeCool();
    CapitalizeFeature();
  }

  lemma CapitalizeMy()
    ensures Capitalize("my") == "My"
  {
  }

  lemma CapitalizeCool()
    ensures Capitalize("cool") == "Cool"
  {
  }

  lemma CapitalizeFeature()
    ensures Capitalize("feature") == "Feature"
  {
  }
}
