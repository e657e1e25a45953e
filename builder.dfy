/** The kind of build a user asks for (`builder::CrateType`); the rest of the builder is not part of this model. */
module Builder {
  datatype CrateType = Library | Binary
}
