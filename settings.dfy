/**
 * The configuration values the commands read from lib/utilities/config.js.
 * That module is not part of this model, so its values are parameters.
 */
module Settings {
  datatype Settings = Settings(
    projectIdentifier: string,
    projectKey: string,
    translationPattern: string,
    languageToCheck: string,
    languagesToAutoTranslate: seq<string>,
    daysSinceLastUpdatedToDeleteBranchSafely: int,
    minutesSinceLastMasterMergeToPurgeSafely: int,
    disableAutoTranslation: bool)
}
