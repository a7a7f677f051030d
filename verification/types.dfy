/** The record shapes of `src/types/index.ts`. */
module Types {
  import opened Wrappers

  /** A `toISOString` timestamp. The model never inspects it: each mutating
      operation receives the clock value to stamp as a parameter. */
  type Timestamp = string

  /** `User`: `id` and `email` are required, `name` and `avatar_url` optional. */
  datatype User = User(id: string, email: string, name: Option<string>, avatarUrl: Option<string>)

  /** `Note`: every field but `summary` and `tags` is required. `userId` is
      the owner, `user_id` in the application. */
  datatype Note = Note(
    id: string,
    title: string,
    content: string,
    summary: Option<string>,
    createdAt: Timestamp,
    updatedAt: Timestamp,
    userId: string,
    isFavorite: bool,
    tags: Option<seq<string>>)

  /** `NoteFormData`: the only fields a caller supplies to create a note. It
      has no id, owner, favourite flag, summary or timestamps, so creation
      cannot set any of them. */
  datatype NoteFormData = NoteFormData(title: string, content: string, tags: Option<seq<string>>)

  /** The object spread onto a stored note by `updateNote`: a
      `Partial<NoteFormData>`, plus the `summary` the editor attaches on save.
      `None` is a key the object does not have. */
  datatype NotePatch = NotePatch(
    title: Option<string>,
    content: Option<string>,
    tags: Option<seq<string>>,
    summary: Option<string>)
}
