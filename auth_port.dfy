/** The authentication port (packages/api/src/modules/auth/application/ports/auth-provider.ts):
    the principal a verified bearer token stands for. */
module AuthPort {

  const AuthenticatedRole := "authenticated"

  /** `{userId, role: 'authenticated', token}` */
  datatype Principal = Principal(userId: string, role: string, token: string)
}
