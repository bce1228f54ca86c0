/** The application settings the pipeline reads (AppConfig). */
module Configs {

  /** The bucket everything lives in, and the folder name used for documents
      whose PO number is blank. */
  datatype AppConfig = AppConfig(container: string, unknownPOFolderName: string)
}
